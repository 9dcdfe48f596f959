/** The tag input dialog of crm/window/input_tag.py: a new label is accepted
    when it is not empty and no label of the target widget reads the same
    once accents are dropped and letters put in lower case. */
module InputTag {
  import opened Text
  import opened Common

  // ---------------------------------------------------------------------
  // unidecode on Latin-1
  // ---------------------------------------------------------------------

  /** `unidecode` of one character: the Latin-1 letters U+00C0 to U+00FF
      become their ASCII spelling; every other character is kept. */
  function DecodeChar(c: char): string {
    if c < '\U{c0}' || '\U{ff}' < c then [c]
    else if c <= '\U{c5}' then "A"
    else if c == '\U{c6}' then "AE"
    else if c == '\U{c7}' then "C"
    else if c <= '\U{cb}' then "E"
    else if c <= '\U{cf}' then "I"
    else if c == '\U{d0}' then "D"
    else if c == '\U{d1}' then "N"
    else if c <= '\U{d6}' then "O"
    else if c == '\U{d7}' then "x"
    else if c == '\U{d8}' then "O"
    else if c <= '\U{dc}' then "U"
    else if c == '\U{dd}' then "Y"
    else if c == '\U{de}' then "Th"
    else if c == '\U{df}' then "ss"
    else if c <= '\U{e5}' then "a"
    else if c == '\U{e6}' then "ae"
    else if c == '\U{e7}' then "c"
    else if c <= '\U{eb}' then "e"
    else if c <= '\U{ef}' then "i"
    else if c == '\U{f0}' then "d"
    else if c == '\U{f1}' then "n"
    else if c <= '\U{f6}' then "o"
    else if c == '\U{f7}' then "/"
    else if c == '\U{f8}' then "o"
    else if c <= '\U{fc}' then "u"
    else if c == '\U{fd}' || c == '\U{ff}' then "y"
    else "th"
  }

  function Unidecode(s: string): string
    decreases |s|
  {
    if s == [] then [] else Unidecode(s[..|s| - 1]) + DecodeChar(s[|s| - 1])
  }

  /** The form `check_tag` compares: `unidecode(x).lower()`. */
  function Normalise(s: string): string {
    Lower(Unidecode(s))
  }

  /** Text made of ASCII characters only. */
  predicate IsAscii(s: string) {
    forall i :: 0 <= i < |s| ==> s[i] < '\U{80}'
  }

  lemma DecodeCharAscii(c: char)
    ensures c < '\U{c0}' ==> DecodeChar(c) == [c]
    ensures '\U{c0}' <= c <= '\U{ff}' ==> IsAscii(DecodeChar(c))
  {
  }

  /** Upper- and lower-casing a character changes nothing once it is
      transliterated and lower-cased. */
  lemma NormaliseCharCase(c: char)
    ensures Lower(DecodeChar(UpperChar(c))) == Lower(DecodeChar(c))
    ensures Lower(DecodeChar(LowerChar(c))) == Lower(DecodeChar(c))
  {
    if c < '\U{c0}' || '\U{ff}' < c {
    } else if c < '\U{d0}' {
      LatinCaseC0(c);
    } else if c < '\U{e0}' {
      LatinCaseD0(c);
    } else if c < '\U{f0}' {
      LatinCaseE0(c);
    } else {
      LatinCaseF0(c);
    }
  }

  /** The same, for the row of Latin-1 characters U+00C0 to U+00CF. */
  lemma LatinCaseC0(c: char)
    requires '\U{c0}' <= c <= '\U{cf}'
    ensures Lower(DecodeChar(UpperChar(c))) == Lower(DecodeChar(c))
    ensures Lower(DecodeChar(LowerChar(c))) == Lower(DecodeChar(c))
  {
    if c == '\U{c0}' {
    } else if c == '\U{c1}' {
    } else if c == '\U{c2}' {
    } else if c == '\U{c3}' {
    } else if c == '\U{c4}' {
    } else if c == '\U{c5}' {
    } else if c == '\U{c6}' {
    } else if c == '\U{c7}' {
    } else if c == '\U{c8}' {
    } else if c == '\U{c9}' {
    } else if c == '\U{ca}' {
    } else if c == '\U{cb}' {
    } else if c == '\U{cc}' {
    } else if c == '\U{cd}' {
    } else if c == '\U{ce}' {
    } else if c == '\U{cf}' {
    }
  }

  /** The same, for the row of Latin-1 characters U+00D0 to U+00DF. */
  lemma LatinCaseD0(c: char)
    requires '\U{d0}' <= c <= '\U{df}'
    ensures Lower(DecodeChar(UpperChar(c))) == Lower(DecodeChar(c))
    ensures Lower(DecodeChar(LowerChar(c))) == Lower(DecodeChar(c))
  {
    if c == '\U{d0}' {
    } else if c == '\U{d1}' {
    } else if c == '\U{d2}' {
    } else if c == '\U{d3}' {
    } else if c == '\U{d4}' {
    } else if c == '\U{d5}' {
    } else if c == '\U{d6}' {
    } else if c == '\U{d7}' {
    } else if c == '\U{d8}' {
    } else if c == '\U{d9}' {
    } else if c == '\U{da}' {
    } else if c == '\U{db}' {
    } else if c == '\U{dc}' {
    } else if c == '\U{dd}' {
    } else if c == '\U{de}' {
    } else if c == '\U{df}' {
    }
  }

  /** The same, for the row of Latin-1 characters U+00E0 to U+00EF. */
  lemma LatinCaseE0(c: char)
    requires '\U{e0}' <= c <= '\U{ef}'
    ensures Lower(DecodeChar(UpperChar(c))) == Lower(DecodeChar(c))
    ensures Lower(DecodeChar(LowerChar(c))) == Lower(DecodeChar(c))
  {
    if c == '\U{e0}' {
    } else if c == '\U{e1}' {
    } else if c == '\U{e2}' {
    } else if c == '\U{e3}' {
    } else if c == '\U{e4}' {
    } else if c == '\U{e5}' {
    } else if c == '\U{e6}' {
    } else if c == '\U{e7}' {
    } else if c == '\U{e8}' {
    } else if c == '\U{e9}' {
    } else if c == '\U{ea}' {
    } else if c == '\U{eb}' {
    } else if c == '\U{ec}' {
    } else if c == '\U{ed}' {
    } else if c == '\U{ee}' {
    } else if c == '\U{ef}' {
    }
  }

  /** The same, for the row of Latin-1 characters U+00F0 to U+00FF. */
  lemma LatinCaseF0(c: char)
    requires '\U{f0}' <= c <= '\U{ff}'
    ensures Lower(DecodeChar(UpperChar(c))) == Lower(DecodeChar(c))
    ensures Lower(DecodeChar(LowerChar(c))) == Lower(DecodeChar(c))
  {
    if c == '\U{f0}' {
    } else if c == '\U{f1}' {
    } else if c == '\U{f2}' {
    } else if c == '\U{f3}' {
    } else if c == '\U{f4}' {
    } else if c == '\U{f5}' {
    } else if c == '\U{f6}' {
    } else if c == '\U{f7}' {
    } else if c == '\U{f8}' {
    } else if c == '\U{f9}' {
    } else if c == '\U{fa}' {
    } else if c == '\U{fb}' {
    } else if c == '\U{fc}' {
    } else if c == '\U{fd}' {
    } else if c == '\U{fe}' {
    } else if c == '\U{ff}' {
    }
  }

  lemma LowerAppend(a: string, b: string)
    ensures Lower(a + b) == Lower(a) + Lower(b)
  {
  }

  lemma UnidecodeAppend(a: string, b: string)
    ensures Unidecode(a + b) == Unidecode(a) + Unidecode(b)
    decreases |b|
  {
    if b != [] {
      assert (a + b)[..|a + b| - 1] == a + b[..|b| - 1];
      UnidecodeAppend(a, b[..|b| - 1]);
      assert Unidecode(b) == Unidecode(b[..|b| - 1]) + DecodeChar(b[|b| - 1]);
    } else {
      assert a + b == a;
    }
  }

  /** `check_tag` is blind to case: `upper()`, `lower()` and `capitalize()`
      of a label all normalise to the label's own form. */
  lemma NormaliseIgnoresCase(s: string)
    ensures Normalise(Upper(s)) == Normalise(s)
    ensures Normalise(Lower(s)) == Normalise(s)
    ensures Normalise(Capitalize(s)) == Normalise(s)
  {
    NormaliseUpper(s);
    NormaliseLower(s);
    if s != [] {
      var first := [UpperChar(s[0])];
      assert Capitalize(s) == first + Lower(s[1..]);
      assert s == [s[0]] + s[1..];
      NormaliseLower(s[1..]);
      NormaliseCharCase(s[0]);
      NormaliseSplit(first, Lower(s[1..]));
      NormaliseSplit([s[0]], s[1..]);
    }
  }

  lemma {:induction false} NormaliseUpper(s: string)
    ensures Normalise(Upper(s)) == Normalise(s)
    decreases |s|
  {
    if s != [] {
      var init, c := s[..|s| - 1], s[|s| - 1];
      assert s == init + [c];
      assert Upper(s) == Upper(init) + [UpperChar(c)];
      calc {
        Normalise(Upper(s));
        { NormaliseSplit(Upper(init), [UpperChar(c)]); }
        Normalise(Upper(init)) + Lower(DecodeChar(UpperChar(c)));
        { NormaliseUpper(init); NormaliseCharCase(c); }
        Normalise(init) + Lower(DecodeChar(c));
        { NormaliseSplit(init, [c]); }
        Normalise(s);
      }
    }
  }

  lemma {:induction false} NormaliseLower(s: string)
    ensures Normalise(Lower(s)) == Normalise(s)
    decreases |s|
  {
    if s != [] {
      var init, c := s[..|s| - 1], s[|s| - 1];
      assert s == init + [c];
      assert Lower(s) == Lower(init) + [LowerChar(c)];
      calc {
        Normalise(Lower(s));
        { NormaliseSplit(Lower(init), [LowerChar(c)]); }
        Normalise(Lower(init)) + Lower(DecodeChar(LowerChar(c)));
        { NormaliseLower(init); NormaliseCharCase(c); }
        Normalise(init) + Lower(DecodeChar(c));
        { NormaliseSplit(init, [c]); }
        Normalise(s);
      }
    }
  }

  lemma NormaliseSplit(a: string, b: string)
    ensures Normalise(a + b) == Normalise(a) + Normalise(b)
    ensures |a| == 1 ==> Normalise(a) == Lower(DecodeChar(a[0]))
  {
    UnidecodeAppend(a, b);
    LowerAppend(Unidecode(a), Unidecode(b));
    if |a| == 1 {
      assert a[..0] == [];
    }
  }

  // ---------------------------------------------------------------------
  // check_tag
  // ---------------------------------------------------------------------

  /** The widget `check_tag` reads its labels from. */
  datatype Widget = ComboBox(itemTexts: seq<string>) | ListWidget(itemTexts: seq<string>) | OtherWidget

  function NormaliseAll(texts: seq<string>): (r: seq<string>)
    ensures |r| == |texts| && forall i :: 0 <= i < |texts| ==> r[i] == Normalise(texts[i])
  {
    seq(|texts|, i requires 0 <= i < |texts| => Normalise(texts[i]))
  }

  /** `check_tag(tag, widget)`. An empty tag is refused before the widget is
      looked at; for a widget that is neither a combo box nor a list, the
      list of labels is never bound and the comparison raises. */
  function CheckTag(tag: string, widget: Widget): (r: Result<bool>)
    ensures tag == "" ==> r == Ok(false)
    ensures tag != "" && widget.OtherWidget? ==> r == Raised("UnboundLocalError")
    ensures !widget.OtherWidget? ==> r.Ok? && (r.value <==> (tag != "" &&
      forall i :: 0 <= i < |widget.itemTexts| ==> Normalise(widget.itemTexts[i]) != Normalise(tag)))
  {
    if tag == "" then Ok(false)
    else
      match widget
      case OtherWidget => Raised("UnboundLocalError")
      case ComboBox(texts) => Ok(Normalise(tag) !in NormaliseAll(texts))
      case ListWidget(texts) => Ok(Normalise(tag) !in NormaliseAll(texts))
  }

  /** The combo-box branch and the list branch give the same verdict on the
      same labels. */
  lemma ComboAndListAgree(tag: string, texts: seq<string>)
    ensures CheckTag(tag, ComboBox(texts)) == CheckTag(tag, ListWidget(texts))
  {
  }

  /** A label already in the widget is refused again, whatever its case. */
  lemma ExistingLabelRefused(tag: string, widget: Widget, k: int)
    requires !widget.OtherWidget? && 0 <= k < |widget.itemTexts|
    requires widget.itemTexts[k] == tag || widget.itemTexts[k] == Upper(tag) || widget.itemTexts[k] == Capitalize(tag)
    ensures CheckTag(tag, widget) == Ok(false)
  {
    NormaliseIgnoresCase(tag);
  }

  // ---------------------------------------------------------------------
  // save_input_user
  // ---------------------------------------------------------------------

  /** The list widget is searched for in the tag window, the combo box in
      the details window; any other parent leaves `widget` unbound. */
  function TargetWidget(parentName: string, itemTexts: seq<string>): Option<Widget> {
    if parentName == "tag" then Some(ListWidget(itemTexts))
    else if parentName == "details" then Some(ComboBox(itemTexts))
    else None
  }

  /** `save_input_user`: the label emitted through `save_tag`, `None` when
      the error box is shown instead. `itemTexts` are the labels of the
      parent's widget named after the category. */
  function SaveInputUser(parentName: string, itemTexts: seq<string>, input: string): (r: Result<Option<string>>)
    ensures r.Raised? <==> TargetWidget(parentName, itemTexts).None?
    ensures r.Ok? && r.value.Some? ==> r.value.value == Capitalize(input) && input != ""
    ensures r.Ok? ==> (r.value.Some? <==> CheckTag(input, TargetWidget(parentName, itemTexts).value) == Ok(true))
  {
    match TargetWidget(parentName, itemTexts)
    case None => Raised("UnboundLocalError")
    case Some(widget) =>
      match CheckTag(input, widget)
      case Ok(ok) => if ok then Ok(Some(Capitalize(input))) else Ok(None)
      case Raised(e) => Raised(e)
  }

  /** Once a label is saved into the widget, entering it again is refused. */
  lemma SavedLabelRefusedAgain(parentName: string, itemTexts: seq<string>, input: string)
    requires SaveInputUser(parentName, itemTexts, input).Ok?
    requires SaveInputUser(parentName, itemTexts, input).value.Some?
    ensures SaveInputUser(parentName, itemTexts + [Capitalize(input)], input) == Ok(None)
  {
    var w := TargetWidget(parentName, itemTexts + [Capitalize(input)]).value;
    ExistingLabelRefused(input, w, |itemTexts|);
  }

  /** In modify mode the line edit starts with the old label, which is still
      in the widget: validating an input that normalises like it (the label
      unchanged, or changed only in case or accents) is refused. */
  lemma ModifyUnchangedRefused(parentName: string, itemTexts: seq<string>, oldLabel: string, input: string)
    requires oldLabel in itemTexts && TargetWidget(parentName, itemTexts).Some?
    requires Normalise(oldLabel) == Normalise(input)
    ensures SaveInputUser(parentName, itemTexts, input) == Ok(None)
  {
    var k :| 0 <= k < |itemTexts| && itemTexts[k] == oldLabel;
    var w := TargetWidget(parentName, itemTexts).value;
    assert Normalise(w.itemTexts[k]) == Normalise(input);
  }

  /** Dropping the grave accent of an è leaves the normal form alone. */
  lemma AccentDropped(a: string, b: string)
    ensures Normalise(a + ['\U{e8}'] + b) == Normalise(a + ['e'] + b)
  {
    NormaliseSplit(a + ['\U{e8}'], b);
    NormaliseSplit(a, ['\U{e8}']);
    NormaliseSplit(a + ['e'], b);
    NormaliseSplit(a, ['e']);
    assert Unidecode(['\U{e8}']) == Unidecode(['e']) by {
      assert ['\U{e8}'][..0] == [] && ['e'][..0] == [];
    }
  }

  /** Renaming "Collègue" to "Collegue" or "collegue" is refused: check_tag
      compares the labels without accents and without case. */
  lemma AccentOnlyChangeRefused(parentName: string, itemTexts: seq<string>)
    requires "Coll\U{e8}gue" in itemTexts && TargetWidget(parentName, itemTexts).Some?
    ensures SaveInputUser(parentName, itemTexts, "Collegue") == Ok(None)
    ensures SaveInputUser(parentName, itemTexts, "collegue") == Ok(None)
  {
    var a, b := "Coll", "gue";
    assert "Coll\U{e8}gue" == a + ['\U{e8}'] + b;
    assert "Collegue" == a + ['e'] + b;
    AccentDropped(a, b);
    ModifyUnchangedRefused(parentName, itemTexts, "Coll\U{e8}gue", "Collegue");
    assert "collegue" == Lower("Collegue");
    NormaliseIgnoresCase("Collegue");
    ModifyUnchangedRefused(parentName, itemTexts, "Coll\U{e8}gue", "collegue");
  }

}
