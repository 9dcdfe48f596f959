/** The rules of crm/window/main_window.py that do not depend on Qt: the
    contact search of the search bar, the file name of a new profile
    picture, the birthday line and the text of the delete confirmation. */
module MainWindow {
  import opened Rows
  import opened Text
  import opened Common
  import opened Dates
  import opened Client
  import Utils

  // ---------------------------------------------------------------------
  // Search
  // ---------------------------------------------------------------------

  /** A line of the contact list: (id, firstname, lastname). */
  function ContactLine(x: Row<Contact>): (nat, string, string) {
    (x.id, x.fields.firstname, x.fields.lastname)
  }

  /** Some phone, mail or address row of contact `c` has a value LIKE the text. */
  predicate ValueMatches(rows: seq<Row<Attribute>>, c: int, text: string) {
    exists i :: 0 <= i < |rows| && rows[i].fields.contactId == c && Like(rows[i].fields.value, text)
  }

  /** Some tag linked to contact `c` through `group_` has a name LIKE the text. */
  predicate GroupTagMatches(t: Tables, c: int, text: string) {
    exists k, j :: 0 <= k < |t.group| && 0 <= j < |t.tag| && t.group[k].fields.contactId == c
      && t.tag[j].id == t.group[k].fields.tagId && Like(t.tag[j].fields.name, text)
  }

  /** The text occurs in one of the places the search looks at. */
  predicate MentionsText(t: Tables, x: Row<Contact>, text: string) {
    Like(x.fields.lastname, text) || Like(x.fields.firstname, text)
    || ValueMatches(t.mail, x.id, text) || ValueMatches(t.phone, x.id, text)
    || ValueMatches(t.address, x.id, text) || GroupTagMatches(t, x.id, text)
  }

  /** The contacts that mention the text, in table order. */
  function Matching(t: Tables, rows: seq<Row<Contact>>, text: string): (r: seq<Row<Contact>>)
    ensures forall x :: x in r <==> x in rows && MentionsText(t, x, text)
    ensures Ascending(rows) ==> Ascending(r)
  {
    var keep := (x: Row<Contact>) => MentionsText(t, x, text);
    if Ascending(rows) then
      FilterAscending(rows, keep);
      Filter(rows, keep)
    else
      Filter(rows, keep)
  }

  function Lines(rows: seq<Row<Contact>>): (r: seq<(nat, string, string)>)
    ensures |r| == |rows|
    ensures forall i :: 0 <= i < |rows| ==> r[i] == ContactLine(rows[i])
  {
    seq(|rows|, i requires 0 <= i < |rows| => ContactLine(rows[i]))
  }

  /** The rows `update_tv_contact` puts in the contact list for the text of
      the search bar: every contact when the text is empty, otherwise the
      contacts that mention it. Each contact appears at most once. */
  function SearchContacts(t: Tables, text: string): (r: seq<(nat, string, string)>)
    ensures text == "" ==> |r| == |t.contact| && forall i :: 0 <= i < |r| ==> r[i] == ContactLine(t.contact[i])
    ensures text != "" ==> forall x :: x in r <==>
      exists i :: 0 <= i < |t.contact| && MentionsText(t, t.contact[i], text) && x == ContactLine(t.contact[i])
    ensures Ascending(t.contact) ==> forall i, j :: 0 <= i < j < |r| ==> r[i].0 < r[j].0
  {
    var rows := if text == "" then t.contact else Matching(t, t.contact, text);
    assert forall i :: 0 <= i < |rows| ==> rows[i] in rows;
    assert forall x :: x in rows ==> x in t.contact;
    Lines(rows)
  }

  /** Every contact mentions the empty text: `LIKE '%%'` holds of any name. */
  lemma MentionsEmpty(t: Tables, x: Row<Contact>)
    ensures MentionsText(t, x, "")
  {
    LikeEmpty(x.fields.lastname);
  }

  /** The two branches of `update_tv_contact` agree: listing every contact is
      what the filtered query would give for the empty text. */
  lemma EmptySearchUniform(t: Tables)
    ensures Matching(t, t.contact, "") == t.contact
    ensures SearchContacts(t, "") == Lines(Matching(t, t.contact, ""))
  {
    MatchingAll(t, t.contact, "");
  }

  lemma MatchingAll(t: Tables, rows: seq<Row<Contact>>, text: string)
    requires text == ""
    ensures Matching(t, rows, text) == rows
  {
    forall i | 0 <= i < |rows| ensures MentionsText(t, rows[i], text) {
      MentionsEmpty(t, rows[i]);
    }
  }

  lemma MatchingCongruent(t: Tables, u: Tables, rows: seq<Row<Contact>>, text: string)
    requires forall i :: 0 <= i < |rows| ==> (MentionsText(t, rows[i], text) <==> MentionsText(u, rows[i], text))
    ensures Matching(t, rows, text) == Matching(u, rows, text)
  {
    FilterCongruent(rows, (x: Row<Contact>) => MentionsText(t, x, text), (x: Row<Contact>) => MentionsText(u, x, text));
  }

  /** Tag names are searched only through `group_`: renaming a tag no
      `group_` row uses (a phone, mail or address tag, say) changes no
      search result. */
  lemma RenamingUnlinkedTag(t: Tables, id: int, name: string, text: string)
    requires !MembershipUsesTag(t.group, id)
    ensures SearchContacts(t.(tag := RenameTag(t.tag, id, name)), text) == SearchContacts(t, text)
  {
    var u := t.(tag := RenameTag(t.tag, id, name));
    forall i | 0 <= i < |t.contact|
      ensures MentionsText(t, t.contact[i], text) <==> MentionsText(u, t.contact[i], text)
    {
      var c := t.contact[i].id;
      if GroupTagMatches(t, c, text) {
        var k, j :| 0 <= k < |t.group| && 0 <= j < |t.tag| && t.group[k].fields.contactId == c
          && t.tag[j].id == t.group[k].fields.tagId && Like(t.tag[j].fields.name, text);
        assert u.tag[j] == t.tag[j];
      }
      if GroupTagMatches(u, c, text) {
        var k, j :| 0 <= k < |u.group| && 0 <= j < |u.tag| && u.group[k].fields.contactId == c
          && u.tag[j].id == u.group[k].fields.tagId && Like(u.tag[j].fields.name, text);
        assert u.tag[j] == t.tag[j];
      }
    }
    MatchingCongruent(t, u, t.contact, text);
  }

  // --- the SQL statement, row by row -------------------------------------

  /** A row of the FROM clause of the search statement: a contact and, for
      each LEFT OUTER JOIN, either a matching row or NULL. */
  datatype JoinedRow = JoinedRow(contact: Row<Contact>, mail: Option<Row<Attribute>>,
                                 phone: Option<Row<Attribute>>, address: Option<Row<Attribute>>,
                                 group: Option<Row<Membership>>, tag: Option<Row<Tag>>)

  /** `LEFT OUTER JOIN <rows> ON contact.id = <rows>.contact_id`: a row of
      the contact, or NULL when it has none. */
  ghost predicate OuterAttribute(o: Option<Row<Attribute>>, rows: seq<Row<Attribute>>, c: int) {
    match o
    case Some(a) => a in rows && a.fields.contactId == c
    case None => forall i :: 0 <= i < |rows| ==> rows[i].fields.contactId != c
  }

  ghost predicate OuterGroup(o: Option<Row<Membership>>, rows: seq<Row<Membership>>, c: int) {
    match o
    case Some(g) => g in rows && g.fields.contactId == c
    case None => forall i :: 0 <= i < |rows| ==> rows[i].fields.contactId != c
  }

  /** `LEFT OUTER JOIN tag ON group_.tag_id = tag.id` */
  ghost predicate OuterTag(o: Option<Row<Tag>>, g: Option<Row<Membership>>, tags: seq<Row<Tag>>) {
    match o
    case Some(x) => x in tags && g.Some? && x.id == g.value.fields.tagId
    case None => g.None? || forall j :: 0 <= j < |tags| ==> tags[j].id != g.value.fields.tagId
  }

  ghost predicate InJoin(t: Tables, row: JoinedRow) {
    var c := row.contact.id;
    row.contact in t.contact && OuterAttribute(row.mail, t.mail, c) && OuterAttribute(row.phone, t.phone, c)
    && OuterAttribute(row.address, t.address, c) && OuterGroup(row.group, t.group, c)
    && OuterTag(row.tag, row.group, t.tag)
  }

  /** `x LIKE "%text%"` where NULL never matches. */
  ghost predicate LikeValue(o: Option<Row<Attribute>>, text: string) {
    o.Some? && Like(o.value.fields.value, text)
  }

  /** The WHERE clause. */
  ghost predicate Where(row: JoinedRow, text: string) {
    Like(row.contact.fields.lastname, text) || Like(row.contact.fields.firstname, text)
    || LikeValue(row.mail, text) || LikeValue(row.phone, text) || LikeValue(row.address, text)
    || (row.tag.Some? && Like(row.tag.value.fields.name, text))
  }

  /** `SELECT DISTINCT contact.id, firstname, lastname FROM ... WHERE ...`
      has `line` among its results. */
  ghost predicate SqlSelects(t: Tables, text: string, line: (nat, string, string)) {
    exists row :: InJoin(t, row) && Where(row, text) && line == ContactLine(row.contact)
  }

  function FirstOf(rows: seq<Row<Attribute>>, c: int): (o: Option<Row<Attribute>>)
    ensures OuterAttribute(o, rows, c)
    decreases |rows|
  {
    if rows == [] then None
    else if rows[0].fields.contactId == c then Some(rows[0])
    else
      var o := FirstOf(rows[1..], c);
      assert o.Some? ==> o.value in rows by {
        if o.Some? { assert o.value in rows[1..]; }
      }
      assert o.None? ==> forall i :: 1 <= i < |rows| ==> rows[i] == rows[1..][i - 1];
      o
  }

  function FirstGroupOf(rows: seq<Row<Membership>>, c: int): (o: Option<Row<Membership>>)
    ensures OuterGroup(o, rows, c)
    decreases |rows|
  {
    if rows == [] then None
    else if rows[0].fields.contactId == c then Some(rows[0])
    else
      var o := FirstGroupOf(rows[1..], c);
      assert o.Some? ==> o.value in rows by {
        if o.Some? { assert o.value in rows[1..]; }
      }
      assert o.None? ==> forall i :: 1 <= i < |rows| ==> rows[i] == rows[1..][i - 1];
      o
  }

  function FirstTagOf(tags: seq<Row<Tag>>, g: Option<Row<Membership>>): (o: Option<Row<Tag>>)
    ensures OuterTag(o, g, tags)
    decreases |tags|
  {
    if g.None? || tags == [] then None
    else if tags[0].id == g.value.fields.tagId then Some(tags[0])
    else
      var o := FirstTagOf(tags[1..], g);
      assert o.Some? ==> o.value in tags by {
        if o.Some? { assert o.value in tags[1..]; }
      }
      assert o.None? ==> forall j :: 1 <= j < |tags| ==> tags[j] == tags[1..][j - 1];
      o
  }

  /** The joined row that takes the first matching row of every joined
      table, or NULL where there is none. */
  ghost function FirstRow(t: Tables, x: Row<Contact>): (row: JoinedRow)
    requires x in t.contact
    ensures InJoin(t, row) && row.contact == x
  {
    var group := FirstGroupOf(t.group, x.id);
    JoinedRow(x, FirstOf(t.mail, x.id), FirstOf(t.phone, x.id), FirstOf(t.address, x.id),
              group, FirstTagOf(t.tag, group))
  }

  /** A joined row the WHERE clause accepts exists exactly for the contacts
      that mention the text. */
  lemma WhereIffMentions(t: Tables, x: Row<Contact>, text: string)
    requires x in t.contact
    ensures (exists row :: InJoin(t, row) && row.contact == x && Where(row, text)) <==> MentionsText(t, x, text)
  {
    if exists row :: InJoin(t, row) && row.contact == x && Where(row, text) {
      var row :| InJoin(t, row) && row.contact == x && Where(row, text);
      WhereGivesMention(t, row, text);
    }
    if MentionsText(t, x, text) {
      var row := MentionGivesWhere(t, x, text);
    }
  }

  /** A joined row for a contact that mentions the text, with the row that
      mentions it in place of the first one. */
  lemma MentionGivesWhere(t: Tables, x: Row<Contact>, text: string) returns (row: JoinedRow)
    requires x in t.contact && MentionsText(t, x, text)
    ensures InJoin(t, row) && row.contact == x && Where(row, text)
  {
    var c := x.id;
    row := FirstRow(t, x);
    if Like(x.fields.lastname, text) || Like(x.fields.firstname, text) {
    } else if ValueMatches(t.mail, c, text) {
      var i :| 0 <= i < |t.mail| && t.mail[i].fields.contactId == c && Like(t.mail[i].fields.value, text);
      row := row.(mail := Some(t.mail[i]));
    } else if ValueMatches(t.phone, c, text) {
      var i :| 0 <= i < |t.phone| && t.phone[i].fields.contactId == c && Like(t.phone[i].fields.value, text);
      row := row.(phone := Some(t.phone[i]));
    } else if ValueMatches(t.address, c, text) {
      var i :| 0 <= i < |t.address| && t.address[i].fields.contactId == c && Like(t.address[i].fields.value, text);
      row := row.(address := Some(t.address[i]));
    } else {
      var k, j :| 0 <= k < |t.group| && 0 <= j < |t.tag| && t.group[k].fields.contactId == c
        && t.tag[j].id == t.group[k].fields.tagId && Like(t.tag[j].fields.name, text);
      row := row.(group := Some(t.group[k]), tag := Some(t.tag[j]));
    }
  }

  lemma WhereGivesMention(t: Tables, row: JoinedRow, text: string)
    requires InJoin(t, row) && Where(row, text)
    ensures MentionsText(t, row.contact, text)
  {
    var c := row.contact.id;
    if LikeValue(row.mail, text) {
      var i :| 0 <= i < |t.mail| && t.mail[i] == row.mail.value;
    } else if LikeValue(row.phone, text) {
      var i :| 0 <= i < |t.phone| && t.phone[i] == row.phone.value;
    } else if LikeValue(row.address, text) {
      var i :| 0 <= i < |t.address| && t.address[i] == row.address.value;
    } else if row.tag.Some? && Like(row.tag.value.fields.name, text) {
      var k :| 0 <= k < |t.group| && t.group[k] == row.group.value;
      var j :| 0 <= j < |t.tag| && t.tag[j] == row.tag.value;
    }
  }

  /** For a non-empty text the list shows exactly what the SQL statement
      selects. */
  lemma SearchMatchesSql(t: Tables, text: string)
    requires text != ""
    ensures forall line :: line in SearchContacts(t, text) <==> SqlSelects(t, text, line)
  {
    forall line ensures line in SearchContacts(t, text) <==> SqlSelects(t, text, line) {
      if line in SearchContacts(t, text) {
        var i :| 0 <= i < |t.contact| && MentionsText(t, t.contact[i], text) && line == ContactLine(t.contact[i]);
        WhereIffMentions(t, t.contact[i], text);
      }
      if SqlSelects(t, text, line) {
        var row :| InJoin(t, row) && Where(row, text) && line == ContactLine(row.contact);
        WhereGivesMention(t, row, text);
        var i :| 0 <= i < |t.contact| && t.contact[i] == row.contact;
      }
    }
  }

  // ---------------------------------------------------------------------
  // Picture file name
  // ---------------------------------------------------------------------

  /** `f"pp_{str(id_).zfill(5)}{path.suffix}"` */
  function PictureFileName(id: int, suffix: string): (r: string)
    ensures "pp_" <= r && |r| >= 3 + |suffix| && r[|r| - |suffix|..] == suffix
  {
    var name := "pp_" + ZFill(IntToDecimal(id), 5) + suffix;
    assert name[|name| - |suffix|..] == suffix;
    name
  }

  /** The digits between "pp_" and the suffix read back as the id; they are
      padded to five and never cut. */
  lemma PictureFileNameRoundTrip(id: nat, suffix: string)
    ensures var r := PictureFileName(id, suffix);
            var digits := r[3..|r| - |suffix|];
            AllDigits(digits) && DecimalValue(digits) == id
            && |digits| == (if |NatToDecimal(id)| >= 5 then |NatToDecimal(id)| else 5)
            && (|NatToDecimal(id)| >= 5 ==> digits == NatToDecimal(id))
  {
    var s := NatToDecimal(id);
    NatToDecimalRoundTrip(id);
    var r := PictureFileName(id, suffix);
    var z := ZFill(s, 5);
    assert r == "pp_" + z + suffix;
    assert r[3..|r| - |suffix|] == z;
    if |s| < 5 {
      assert s[0] != '-' && s[0] != '+';
      assert z == Zeros(5 - |s|) + s;
      LeadingZeros(5 - |s|, s);
    }
  }

  // ---------------------------------------------------------------------
  // Birthday line
  // ---------------------------------------------------------------------

  /** The stored birthday of a contact created without one. */
  const SENTINEL_BIRTHDAY: string := "1899-12-31"

  predicate ShowsBirthday(stored: string) {
    stored != "" && stored != SENTINEL_BIRTHDAY
  }

  /** The text of the birthday label in `update_other_display`, with
      `datetime.now()` given as `today`: "<age> ans (dd/mm/YYYY)", blank for
      no birthday or the sentinel, `ValueError` for text `strptime` refuses. */
  function BirthdayLabel(stored: string, today: Date): (r: Result<string>)
    ensures !ShowsBirthday(stored) ==> r == Ok("")
    ensures ShowsBirthday(stored) && ParseIso(stored).None? ==> r == Raised("ValueError")
    ensures r == Ok("") <==> !ShowsBirthday(stored)
  {
    if !ShowsBirthday(stored) then Ok("")
    else
      match ParseIso(stored)
      case None => Raised("ValueError")
      case Some(b) =>
        var age := Utils.GetAgeFromBirthday(b, today);
        Ok(IntToDecimal(age) + " ans (" + FormatDisplay(b) + ")")
  }

  /** The sentinel is what a contact saved without a birthday holds, and it
      always shows blank. */
  lemma SentinelBlank(today: Date)
    ensures FormatIso(Date(1899, 12, 31)) == SENTINEL_BIRTHDAY
    ensures BirthdayLabel(FormatIso(Date(1899, 12, 31)), today) == Ok("")
  {
    assert Pow10(2) == 100;
    assert FixedDigits(1899, 4) == "1899";
    assert FixedDigits(12, 2) == "12";
    assert FixedDigits(31, 2) == "31";
  }

  /** A real birthday, stored as `save_changes` stores it, shows the age and
      the date it was entered as. */
  lemma StoredBirthdayShown(d: Date, today: Date)
    requires ValidDate(d) && d != Date(1899, 12, 31)
    ensures BirthdayLabel(FormatIso(d), today)
            == Ok(IntToDecimal(Utils.GetAgeFromBirthday(d, today)) + " ans (" + FormatDisplay(d) + ")")
  {
    var stored := FormatIso(d);
    IsoRoundTrip(d);
    assert stored != "" by { assert ParseIso("") == None; }
    assert stored != SENTINEL_BIRTHDAY by {
      IsoRoundTrip(Date(1899, 12, 31));
      SentinelBlank(today);
      assert ParseIso(SENTINEL_BIRTHDAY) == Some(Date(1899, 12, 31));
    }
    assert ParseIso(stored) == Some(d);
  }

  // ---------------------------------------------------------------------
  // Delete confirmation
  // ---------------------------------------------------------------------

  /** The fixed start of the message for each kind of data. */
  function DeletePrefix(typeData: string): Option<string> {
    if typeData == "contact" then Some("Etes-vous sur de vouloir supprimer le contact ")
    else if typeData == "phone" then Some("Etes-vous sur de vouloir supprimer le numéro ")
    else if typeData == "mail" then Some("Etes-vous sur de vouloir supprimer l'adresse mail ")
    else if typeData == "address" then Some("Etes-vous sur de vouloir supprimer l'adresse ")
    else None
  }

  /** `MessageDelete(type_data, *args)`: the prefix of the kind followed by
      the arguments joined with single spaces. Any other kind leaves `text`
      unbound, and `text += ...` raises `UnboundLocalError`. */
  function DeleteMessage(typeData: string, args: seq<string>): (r: Result<string>)
    ensures r.Ok? <==> typeData in {"contact", "phone", "mail", "address"}
    ensures r.Ok? ==> DeletePrefix(typeData).Some? && DeletePrefix(typeData).value <= r.value
                      && r.value[|DeletePrefix(typeData).value|..] == Join(args, " ")
  {
    match DeletePrefix(typeData)
    case None => Raised("UnboundLocalError")
    case Some(prefix) =>
      var m := prefix + Join(args, " ");
      assert m[|prefix|..] == Join(args, " ");
      Ok(m)
  }

  /** Deleting a contact names it by first and last name, one space apart. */
  lemma DeleteContactMessage(firstname: string, lastname: string)
    ensures DeleteMessage("contact", [firstname, lastname])
            == Ok("Etes-vous sur de vouloir supprimer le contact " + firstname + " " + lastname)
  {
    assert [firstname, lastname][1..] == [lastname];
    assert Join([firstname, lastname], " ") == firstname + " " + lastname;
    var prefix := "Etes-vous sur de vouloir supprimer le contact ";
    assert DeletePrefix("contact") == Some(prefix);
    assert prefix + (firstname + " " + lastname) == prefix + firstname + " " + lastname;
  }
}
