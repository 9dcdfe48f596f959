/** The validation and seed helpers of crm/api/utils.py: the default tags,
    the age of a contact, and the French phone-number check. */
module Utils {
  import opened Text
  import opened Dates
  import opened Common

  // ---------------------------------------------------------------------
  // Seed tags
  // ---------------------------------------------------------------------

  const GROUP: string := "group"
  const PHONE: string := "phone"
  const MAIL: string := "mail"
  const ADDRESS: string := "address"

  /** `DEFAULT_TAGS`, as (tag, category) pairs in their declared order. */
  const DEFAULT_TAGS: seq<(string, string)> := [
    ("Famille", GROUP),
    ("Collègue", GROUP),
    ("Personnel", PHONE),
    ("Travail", PHONE),
    ("Personnel", MAIL),
    ("Travail", MAIL),
    ("Domicile", ADDRESS),
    ("Travail", ADDRESS)
  ]

  function CountCategory(tags: seq<(string, string)>, category: string): nat {
    if tags == [] then 0
    else (if tags[0].1 == category then 1 else 0) + CountCategory(tags[1..], category)
  }

  /** Removing the first tag from a list removes its contribution to the count. */
  lemma CountStep(tags: seq<(string, string)>, k: nat, category: string)
    requires k < |tags|
    ensures CountCategory(tags[k..], category)
            == (if tags[k].1 == category then 1 else 0) + CountCategory(tags[k + 1..], category)
  {
    assert tags[k..][1..] == tags[k + 1..];
  }

  /** How many seed tags fall into `category`. */
  lemma {:induction false} DefaultTagsCount(category: string)
    ensures CountCategory(DEFAULT_TAGS, category)
            == (if category == GROUP then 2 else 0) + (if category == PHONE then 2 else 0)
             + (if category == MAIL then 2 else 0) + (if category == ADDRESS then 2 else 0)
  {
    var t := DEFAULT_TAGS;
    assert t[8..] == [];
    CountStep(t, 7, category);
    CountStep(t, 6, category);
    CountStep(t, 5, category);
    CountStep(t, 4, category);
    CountStep(t, 3, category);
    CountStep(t, 2, category);
    CountStep(t, 1, category);
    CountStep(t, 0, category);
    assert t[0..] == t;
  }

  /** Eight seed tags, two in each of the four categories and none elsewhere. */
  lemma DefaultTagsPartition()
    ensures |DEFAULT_TAGS| == 8
    ensures CountCategory(DEFAULT_TAGS, GROUP) == 2
    ensures CountCategory(DEFAULT_TAGS, PHONE) == 2
    ensures CountCategory(DEFAULT_TAGS, MAIL) == 2
    ensures CountCategory(DEFAULT_TAGS, ADDRESS) == 2
    ensures forall i :: 0 <= i < |DEFAULT_TAGS| ==> DEFAULT_TAGS[i].1 in {GROUP, PHONE, MAIL, ADDRESS}
  {
    assert GROUP != PHONE && GROUP != MAIL && GROUP != ADDRESS by { assert GROUP[0] != PHONE[0] && GROUP[0] != MAIL[0] && GROUP[0] != ADDRESS[0]; }
    assert PHONE != MAIL && PHONE != ADDRESS by { assert PHONE[0] != MAIL[0] && PHONE[0] != ADDRESS[0]; }
    assert MAIL != ADDRESS by { assert MAIL[0] != ADDRESS[0]; }
    DefaultTagsCount(GROUP);
    DefaultTagsCount(PHONE);
    DefaultTagsCount(MAIL);
    DefaultTagsCount(ADDRESS);
  }

  // ---------------------------------------------------------------------
  // Age
  // ---------------------------------------------------------------------

  /** Tuple order on (month, day), as Python compares `(m1, d1) < (m2, d2)`. */
  predicate EarlierInYear(m1: int, d1: int, m2: int, d2: int) {
    m1 < m2 || (m1 == m2 && d1 < d2)
  }

  /** The `n`-th anniversary of `birthday` is on or before `today`. */
  predicate ReachedAnniversary(birthday: Date, today: Date, n: int) {
    birthday.year + n < today.year
    || (birthday.year + n == today.year && !EarlierInYear(today.month, today.day, birthday.month, birthday.day))
  }

  /** `get_age_from_birthday(birthday)` with `datetime.now()` passed in as
      `today`: the number of whole years since `birthday`, that is, the last
      anniversary already reached. */
  function GetAgeFromBirthday(birthday: Date, today: Date): (age: int)
    ensures ReachedAnniversary(birthday, today, age)
    ensures !ReachedAnniversary(birthday, today, age + 1)
    ensures age == today.year - birthday.year || age == today.year - birthday.year - 1
  {
    today.year - birthday.year
      - (if EarlierInYear(today.month, today.day, birthday.month, birthday.day) then 1 else 0)
  }

  /** On the anniversary the age is the plain difference of the years. */
  lemma AgeOnAnniversary(birthday: Date, today: Date)
    requires today.month == birthday.month && today.day == birthday.day
    ensures GetAgeFromBirthday(birthday, today) == today.year - birthday.year
  {
  }

  /** On the day before an anniversary the age is one less than on the
      anniversary itself, also when that day is in the month or the year
      before. */
  lemma AgeOnDayBefore(birthday: Date, y: int)
    requires ValidDate(birthday) && y > birthday.year && ValidDate(Date(y, birthday.month, birthday.day))
    ensures GetAgeFromBirthday(birthday, PreviousDay(Date(y, birthday.month, birthday.day)))
         == GetAgeFromBirthday(birthday, Date(y, birthday.month, birthday.day)) - 1
  {
    AgeOnAnniversary(birthday, Date(y, birthday.month, birthday.day));
  }

  /** Nobody born on or before `today` has a negative age. */
  lemma AgeNonNegative(birthday: Date, today: Date)
    requires ReachedAnniversary(birthday, today, 0)
    ensures GetAgeFromBirthday(birthday, today) >= 0
  {
  }

  // ---------------------------------------------------------------------
  // Phone numbers: the regular expression of check_phone_number_format
  // (crm/api/utils.py:85-86), first as a reference definition that follows
  // the pattern construct by construct, then as a left-to-right recogniser
  // proved equal to it.
  // ---------------------------------------------------------------------

  /** Python's `\s` in a `str` pattern: the characters `str.isspace()` accepts. */
  predicate IsSpace(c: char) {
    c == ' ' || ('\t' <= c <= '\r') || ('\U{1c}' <= c <= '\U{1f}') || c == '\U{85}' || c == '\U{a0}'
    || c == '\U{1680}' || ('\U{2000}' <= c <= '\U{200a}') || c == '\U{2028}' || c == '\U{2029}'
    || c == '\U{202f}' || c == '\U{205f}' || c == '\U{3000}'
  }

  /** `[\s.-]` */
  predicate IsSep(c: char) {
    IsSpace(c) || c == '.' || c == '-'
  }

  predicate AllSeps(s: string) {
    forall i :: 0 <= i < |s| ==> IsSep(s[i])
  }

  /** `[\s.-]{0,3}` */
  predicate SepRun(s: string) {
    |s| <= 3 && AllSeps(s)
  }

  /** `(?:\+|00)33` */
  predicate CountryCode(p: string) {
    p == "+33" || p == "0033"
  }

  /** `(?:\(0\)[\s.-]{0,3})?` */
  predicate OptionalTrunk(t: string) {
    t == "" || ("(0)" <= t && SepRun(t[3..]))
  }

  /** `[\s.-]{0,3}(?:\(0\)[\s.-]{0,3})?` */
  predicate Trailer(t: string) {
    exists j :: 0 <= j <= |t| && SepRun(t[..j]) && OptionalTrunk(t[j..])
  }

  /** `(?:\+|00)33[\s.-]{0,3}(?:\(0\)[\s.-]{0,3})?|0` */
  predicate PhonePrefix(p: string) {
    p == "0" || exists c :: 0 <= c <= |p| && CountryCode(p[..c]) && Trailer(p[c..])
  }

  /** `[\s.-]?\d{n}` */
  predicate DigitGroup(g: string, n: nat) {
    (|g| == n && AllDigits(g)) || (|g| == n + 1 && IsSep(g[0]) && AllDigits(g[1..]))
  }

  /** `(?:[\s.-]?\d{n}){k}` */
  predicate DigitGroups(s: string, n: nat, k: nat)
    decreases k
  {
    if k == 0 then s == ""
    else exists j :: 0 <= j <= |s| && DigitGroup(s[..j], n) && DigitGroups(s[j..], n, k - 1)
  }

  /** `(?:[\s.-]?\d{2}){4}|\d{2}(?:[\s.-]?\d{3}){2}` */
  predicate Subscriber(t: string) {
    DigitGroups(t, 2, 4) || (|t| >= 2 && AllDigits(t[..2]) && DigitGroups(t[2..], 3, 2))
  }

  /** `[1-9]` followed by the subscriber digits. */
  predicate NationalNumber(b: string) {
    |b| >= 1 && '1' <= b[0] <= '9' && Subscriber(b[1..])
  }

  /** The pattern between `^` and `$`, matched against the whole of `s`. */
  predicate WholeMatch(s: string) {
    exists i :: 0 <= i <= |s| && PhonePrefix(s[..i]) && NationalNumber(s[i..])
  }

  /** `re.match` with the anchors: Python's `$` also matches just before a
      final newline. */
  predicate PhonePattern(s: string) {
    WholeMatch(s) || (|s| >= 1 && s[|s| - 1] == '\n' && WholeMatch(s[..|s| - 1]))
  }

  // --- the recogniser ---------------------------------------------------

  /** Number of separators at the start of `s`. */
  function SkipSeps(s: string): (n: nat)
    ensures n <= |s| && AllSeps(s[..n])
    ensures n < |s| ==> !IsSep(s[n])
  {
    if s != [] && IsSep(s[0]) then
      var n := 1 + SkipSeps(s[1..]);
      assert s[..n] == [s[0]] + s[1..][..n - 1];
      n
    else 0
  }

  /** Length of `[\s.-]{0,3}(?:\(0\)[\s.-]{0,3})?` at the start of `x`,
      when it is followed by something other than a separator. */
  function TrailerLength(x: string): Option<nat> {
    var j := SkipSeps(x);
    if j > 3 then None
    else if "(0)" <= x[j..] then
      var k := SkipSeps(x[j + 3..]);
      if k > 3 then None else Some(j + 3 + k)
    else Some(j)
  }

  /** Length of the prefix alternative at the start of `s`. */
  function PrefixLength(s: string): Option<nat> {
    if "+33" <= s then
      (match TrailerLength(s[3..]) case None => None case Some(n) => Some(3 + n))
    else if "0033" <= s then
      (match TrailerLength(s[4..]) case None => None case Some(n) => Some(4 + n))
    else if "0" <= s then Some(1)
    else None
  }

  /** `(?:[\s.-]?\d{n}){k}`, deciding each optional separator by looking at
      the next character. */
  function ScanGroups(s: string, n: nat, k: nat): bool
    decreases k
  {
    if k == 0 then s == ""
    else if s != [] && IsSep(s[0]) then |s| >= n + 1 && AllDigits(s[1..n + 1]) && ScanGroups(s[n + 1..], n, k - 1)
    else |s| >= n && AllDigits(s[..n]) && ScanGroups(s[n..], n, k - 1)
  }

  function ScanNational(b: string): bool {
    |b| >= 1 && '1' <= b[0] <= '9'
    && (ScanGroups(b[1..], 2, 4) || (|b| >= 3 && AllDigits(b[1..3]) && ScanGroups(b[3..], 3, 2)))
  }

  /** `check_phone_number_format(number)`, answered in one left-to-right pass
      and equal to the regular expression. */
  function CheckPhoneNumberFormat(number: string): (ok: bool)
    ensures ok <==> PhonePattern(number)
  {
    var s := if |number| >= 1 && number[|number| - 1] == '\n' then number[..|number| - 1] else number;
    PhonePatternScan(number);
    match PrefixLength(s)
    case None => false
    case Some(i) => i <= |s| && ScanNational(s[i..])
  }

  // --- proof that the recogniser decides the pattern --------------------

  /** `SkipSeps` stops at the first character that is not a separator. */
  lemma {:induction false} SkipSepsUnique(s: string, j: nat)
    requires j <= |s| && AllSeps(s[..j]) && (j < |s| ==> !IsSep(s[j]))
    ensures SkipSeps(s) == j
    decreases j
  {
    if j > 0 {
      assert s[..j][0] == s[0];
      assert s[1..][..j - 1] == s[..j][1..];
      SkipSepsUnique(s[1..], j - 1);
    }
  }

  /** Whatever `ScanGroups` accepts is `k` groups of the pattern. */
  lemma {:induction false} ScanGroupsSound(s: string, n: nat, k: nat)
    requires ScanGroups(s, n, k)
    ensures DigitGroups(s, n, k)
    decreases k
  {
    if k > 0 {
      if s != [] && IsSep(s[0]) {
        ScanGroupsSound(s[n + 1..], n, k - 1);
        var g := s[..n + 1];
        assert g[0] == s[0] && g[1..] == s[1..n + 1];
        assert DigitGroup(g, n);
      } else {
        ScanGroupsSound(s[n..], n, k - 1);
        assert DigitGroup(s[..n], n);
      }
    }
  }

  /** `k` groups of the pattern are accepted by `ScanGroups`: with at least
      one digit per group the optional separator is never ambiguous. */
  lemma {:induction false} ScanGroupsComplete(s: string, n: nat, k: nat)
    requires n >= 1 && DigitGroups(s, n, k)
    ensures ScanGroups(s, n, k)
    decreases k
  {
    if k > 0 {
      var j :| 0 <= j <= |s| && DigitGroup(s[..j], n) && DigitGroups(s[j..], n, k - 1);
      var g := s[..j];
      ScanGroupsComplete(s[j..], n, k - 1);
      assert g[0] == s[0];
      if |g| == n + 1 && IsSep(g[0]) {
        assert g[1..] == s[1..n + 1];
      } else {
        assert IsDigit(g[0]);
        assert g == s[..n];
      }
    }
  }

  lemma ScanGroupsIff(s: string, n: nat, k: nat)
    requires n >= 1
    ensures ScanGroups(s, n, k) <==> DigitGroups(s, n, k)
  {
    if ScanGroups(s, n, k) {
      ScanGroupsSound(s, n, k);
    }
    if DigitGroups(s, n, k) {
      ScanGroupsComplete(s, n, k);
    }
  }

  lemma {:induction false} ScanNationalIff(b: string)
    ensures ScanNational(b) <==> NationalNumber(b)
  {
    if |b| >= 1 {
      ScanGroupsIff(b[1..], 2, 4);
      if |b| >= 3 {
        assert b[1..][..2] == b[1..3];
        assert b[1..][2..] == b[3..];
        ScanGroupsIff(b[3..], 3, 2);
      }
    }
  }

  /** What `TrailerLength` measures is a trailer. */
  lemma {:induction false} TrailerSound(x: string)
    requires TrailerLength(x).Some?
    ensures TrailerLength(x).value <= |x|
    ensures Trailer(x[..TrailerLength(x).value])
  {
    var j := SkipSeps(x);
    var n := TrailerLength(x).value;
    if "(0)" <= x[j..] {
      var k := SkipSeps(x[j + 3..]);
      var t := x[..n];
      assert t[..j] == x[..j];
      assert t[j..] == x[j..n];
      assert x[j..n][3..] == x[j + 3..][..k];
      assert OptionalTrunk(t[j..]);
    } else {
      assert x[..n][..j] == x[..j];
      assert x[..n][j..] == "";
    }
  }

  /** A trailer followed by a digit 1-9 is the one `TrailerLength` finds. */
  lemma {:induction false} TrailerNoTrunk(x: string, n: nat)
    requires n <= 3 && n < |x| && AllSeps(x[..n]) && '1' <= x[n] <= '9'
    ensures TrailerLength(x) == Some(n)
  {
    SkipSepsUnique(x, n);
    assert x[n..][0] == x[n];
  }

  lemma {:induction false} TrailerWithTrunk(x: string, j: nat, n: nat)
    requires j <= 3 && j + 3 <= n < |x| && n - j - 3 <= 3
    requires AllSeps(x[..j]) && x[j..j + 3] == "(0)" && AllSeps(x[j + 3..n]) && '1' <= x[n] <= '9'
    ensures TrailerLength(x) == Some(n)
  {
    assert x[j] == x[j..j + 3][0];
    SkipSepsUnique(x, j);
    assert x[j..][..3] == x[j..j + 3];
    var y := x[j + 3..];
    assert y[..n - j - 3] == x[j + 3..n];
    assert y[n - j - 3] == x[n];
    SkipSepsUnique(y, n - j - 3);
  }

  /** A trailer followed by a digit 1-9 is the one `TrailerLength` finds. */
  lemma {:induction false} TrailerUnique(x: string, n: nat)
    requires n < |x| && Trailer(x[..n]) && '1' <= x[n] <= '9'
    ensures TrailerLength(x) == Some(n)
  {
    var t := x[..n];
    var j :| 0 <= j <= |t| && SepRun(t[..j]) && OptionalTrunk(t[j..]);
    assert t[..j] == x[..j];
    if t[j..] == "" {
      assert j == n;
      TrailerNoTrunk(x, n);
    } else {
      assert t[j..][..3] == x[j..j + 3];
      assert t[j..][3..] == x[j + 3..n];
      TrailerWithTrunk(x, j, n);
    }
  }

  /** What `PrefixLength` measures is a prefix of the pattern. */
  lemma {:induction false} PrefixSound(s: string)
    requires PrefixLength(s).Some?
    ensures PrefixLength(s).value <= |s|
    ensures PhonePrefix(s[..PrefixLength(s).value])
  {
    var i := PrefixLength(s).value;
    if "+33" <= s {
      TrailerSound(s[3..]);
      var n := i - 3;
      assert s[..i][..3] == "+33";
      assert s[..i][3..] == s[3..][..n];
      assert CountryCode(s[..i][..3]);
    } else if "0033" <= s {
      TrailerSound(s[4..]);
      var n := i - 4;
      assert s[..i][..4] == "0033";
      assert s[..i][4..] == s[4..][..n];
      assert CountryCode(s[..i][..4]);
    } else {
      assert s[..1] == "0";
    }
  }

  lemma PrefixZero(s: string)
    requires |s| >= 2 && s[0] == '0' && '1' <= s[1] <= '9'
    ensures PrefixLength(s) == Some(1)
  {
    assert !("+33" <= s) by { assert "+33"[0] == '+'; }
    assert !("0033" <= s) by { assert "0033"[1] == '0'; }
    assert "0" <= s by { assert s[..1] == "0"; }
  }

  lemma {:induction false} PrefixPlus(s: string, i: nat)
    requires "+33" <= s && 3 <= i < |s| && Trailer(s[3..i]) && '1' <= s[i] <= '9'
    ensures PrefixLength(s) == Some(i)
  {
    var x := s[3..];
    assert x[..i - 3] == s[3..i];
    assert x[i - 3] == s[i];
    TrailerUnique(x, i - 3);
  }

  lemma {:induction false} PrefixDoubleZero(s: string, i: nat)
    requires "0033" <= s && 4 <= i < |s| && Trailer(s[4..i]) && '1' <= s[i] <= '9'
    ensures PrefixLength(s) == Some(i)
  {
    assert !("+33" <= s) by { assert s[0] == "0033"[0]; }
    var x := s[4..];
    assert x[..i - 4] == s[4..i];
    assert x[i - 4] == s[i];
    TrailerUnique(x, i - 4);
  }

  /** A prefix followed by a digit 1-9 is the one `PrefixLength` finds. */
  lemma {:induction false} PrefixUnique(s: string, i: nat)
    requires i < |s| && PhonePrefix(s[..i]) && '1' <= s[i] <= '9'
    ensures PrefixLength(s) == Some(i)
  {
    var p := s[..i];
    if p == "0" {
      assert i == 1 && s[0] == p[0];
      PrefixZero(s);
    } else {
      var c :| 0 <= c <= |p| && CountryCode(p[..c]) && Trailer(p[c..]);
      assert p[c..] == s[c..i];
      assert s[..c] == p[..c];
      if c == 3 {
        PrefixPlus(s, i);
      } else {
        PrefixDoubleZero(s, i);
      }
    }
  }

  lemma {:induction false} WholeMatchScan(s: string)
    ensures WholeMatch(s) <==> (PrefixLength(s).Some? && PrefixLength(s).value <= |s|
                                 && ScanNational(s[PrefixLength(s).value..]))
  {
    if WholeMatch(s) {
      var i :| 0 <= i <= |s| && PhonePrefix(s[..i]) && NationalNumber(s[i..]);
      assert s[i..][0] == s[i];
      PrefixUnique(s, i);
      ScanNationalIff(s[i..]);
    }
    if PrefixLength(s).Some? && PrefixLength(s).value <= |s| {
      var i := PrefixLength(s).value;
      if ScanNational(s[i..]) {
        PrefixSound(s);
        ScanNationalIff(s[i..]);
        assert 0 <= i <= |s| && PhonePrefix(s[..i]) && NationalNumber(s[i..]);
      }
    }
  }

  /** A whole match ends in a digit, so it never ends in a newline. */
  lemma {:induction false} WholeMatchEndsWithDigit(s: string)
    requires WholeMatch(s)
    ensures |s| >= 1 && IsDigit(s[|s| - 1])
  {
    WholeMatchScan(s);
    var i := PrefixLength(s).value;
    ScanNationalIff(s[i..]);
    NationalEndsWithDigit(s[i..]);
    assert s[|s| - 1] == s[i..][|s[i..]| - 1];
  }

  lemma NationalEndsWithDigit(b: string)
    requires NationalNumber(b)
    ensures |b| >= 1 && IsDigit(b[|b| - 1])
  {
    var t := b[1..];
    assert b[|b| - 1] == t[|t| - 1];
    if DigitGroups(t, 2, 4) {
      GroupsEndWithDigit(t, 2, 4);
    } else {
      GroupsEndWithDigit(t[2..], 3, 2);
      assert t[|t| - 1] == t[2..][|t[2..]| - 1];
    }
  }

  lemma {:induction false} GroupsEndWithDigit(s: string, n: nat, k: nat)
    requires n >= 1 && k >= 1 && DigitGroups(s, n, k)
    ensures |s| >= 1 && IsDigit(s[|s| - 1])
    decreases k
  {
    var j :| 0 <= j <= |s| && DigitGroup(s[..j], n) && DigitGroups(s[j..], n, k - 1);
    if k == 1 {
      assert s[j..] == "";
      assert s[..j][j - 1] == s[|s| - 1];
    } else {
      GroupsEndWithDigit(s[j..], n, k - 1);
      assert s[j..][|s[j..]| - 1] == s[|s| - 1];
    }
  }

  lemma {:induction false} PhonePatternScan(number: string)
    ensures PhonePattern(number) <==>
      var s := if |number| >= 1 && number[|number| - 1] == '\n' then number[..|number| - 1] else number;
      PrefixLength(s).Some? && PrefixLength(s).value <= |s| && ScanNational(s[PrefixLength(s).value..])
  {
    if |number| >= 1 && number[|number| - 1] == '\n' {
      if WholeMatch(number) {
        WholeMatchEndsWithDigit(number);
      }
      WholeMatchScan(number[..|number| - 1]);
    } else {
      WholeMatchScan(number);
    }
  }

  // --- consequences of the anchors ---------------------------------------

  /** Only a single final newline is tolerated. */
  lemma TrailingNewline(s: string)
    ensures CheckPhoneNumberFormat(s + "\n") == WholeMatch(s)
    ensures !CheckPhoneNumberFormat(s + "\n\n")
  {
    assert (s + "\n")[..|s|] == s;
    assert (s + "\n\n")[..|s| + 1] == s + "\n";
    if WholeMatch(s + "\n") {
      WholeMatchEndsWithDigit(s + "\n");
    }
    if WholeMatch(s + "\n\n") {
      WholeMatchEndsWithDigit(s + "\n\n");
    }
    if WholeMatch(s + "\n") {
      WholeMatchEndsWithDigit(s + "\n");
    }
  }

  /** Anything before the prefix is rejected: an accepted number starts with
      `+` or `0`. */
  lemma {:induction false} AcceptedStart(s: string)
    requires CheckPhoneNumberFormat(s)
    ensures s[0] == '+' || s[0] == '0'
  {
    var t := if |s| >= 1 && s[|s| - 1] == '\n' then s[..|s| - 1] else s;
    assert PrefixLength(t).Some?;
    assert t[0] == s[0];
  }
}
