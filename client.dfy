/** The contact store of crm/database/client.py: one SQLite file with six
    tables, read and written by small functions that each run one statement
    (or, for the contact cascade, one transaction).

    Foreign keys are declared but SQLite leaves them unenforced, so a
    `contact_id` or `tag_id` may name a row that does not exist; the model
    allows that. Every query is read without `ORDER BY`; the model returns
    rows in id order. */
module Client {
  import opened Rows
  import opened Text
  import opened Common
  import Utils

  datatype Contact = Contact(firstname: string, lastname: string, profilePicture: string,
                             birthday: string, company: string, job: string)

  datatype Tag = Tag(name: string, category: string)

  /** A row of `phone`, `mail` or `address`: the value, its contact and its tag. */
  datatype Attribute = Attribute(value: string, contactId: int, tagId: int)

  /** A row of `group_`. */
  datatype Membership = Membership(contactId: int, tagId: int)

  datatype Tables = Tables(contact: seq<Row<Contact>>, tag: seq<Row<Tag>>,
                           phone: seq<Row<Attribute>>, mail: seq<Row<Attribute>>,
                           address: seq<Row<Attribute>>, group: seq<Row<Membership>>)

  predicate WellKeyed(t: Tables) {
    Ascending(t.contact) && Ascending(t.tag) && Ascending(t.phone)
    && Ascending(t.mail) && Ascending(t.address) && Ascending(t.group)
  }

  /** The file right after `init_database_structure`. */
  const EMPTY: Tables := Tables([], [], [], [], [], [])

  /** The picture every new contact starts with. */
  const DEFAULT_PICTURE: string := "pp_00000.png"

  // ---------------------------------------------------------------------
  // Seeding
  // ---------------------------------------------------------------------

  function DefaultTagRows(): (r: seq<Tag>)
    ensures |r| == |Utils.DEFAULT_TAGS|
    ensures forall i :: 0 <= i < |r| ==> r[i] == Tag(Utils.DEFAULT_TAGS[i].0, Utils.DEFAULT_TAGS[i].1)
  {
    seq(|Utils.DEFAULT_TAGS|, i requires 0 <= i < |Utils.DEFAULT_TAGS| =>
      Tag(Utils.DEFAULT_TAGS[i].0, Utils.DEFAULT_TAGS[i].1))
  }

  /** A new file seeded by `init_database_tag`. */
  function SeededTables(): Tables {
    EMPTY.(tag := InsertAll([], DefaultTagRows()))
  }

  /** The seeded store holds exactly the default tags, in order, with ids 1
      to 8, and nothing else. */
  lemma SeededStore()
    ensures SeededTables().contact == [] && SeededTables().phone == [] && SeededTables().mail == []
    ensures SeededTables().address == [] && SeededTables().group == []
    ensures |SeededTables().tag| == |Utils.DEFAULT_TAGS| == 8
    ensures forall i :: 0 <= i < |SeededTables().tag| ==>
      SeededTables().tag[i] == Row(i + 1, Tag(Utils.DEFAULT_TAGS[i].0, Utils.DEFAULT_TAGS[i].1))
    ensures WellKeyed(SeededTables())
  {
    InsertAllFromEmpty(DefaultTagRows());
    InsertAllAscending([], DefaultTagRows());
  }

  // ---------------------------------------------------------------------
  // Row rewrites (UPDATE)
  // ---------------------------------------------------------------------

  /** `update_contact`: every column but `profile_picture` of the contact
      with this id. */
  function EditContact(rows: seq<Row<Contact>>, id: int, firstname: string, lastname: string,
                       birthday: string, company: string, job: string): (r: seq<Row<Contact>>)
    ensures |r| == |rows|
    ensures forall i :: 0 <= i < |rows| ==> r[i].id == rows[i].id
    ensures forall i :: 0 <= i < |rows| && rows[i].id == id ==>
      r[i].fields == Contact(firstname, lastname, rows[i].fields.profilePicture, birthday, company, job)
    ensures forall i :: 0 <= i < |rows| && rows[i].id != id ==> r[i] == rows[i]
    ensures !HasId(rows, id) ==> r == rows
    ensures Ascending(rows) ==> Ascending(r)
  {
    UpdateById(rows, id, (c: Contact) =>
      c.(firstname := firstname, lastname := lastname, birthday := birthday, company := company, job := job))
  }

  /** `update_profil_picture`: only `profile_picture` of that contact. */
  function SetPicture(rows: seq<Row<Contact>>, id: int, filename: string): (r: seq<Row<Contact>>)
    ensures |r| == |rows|
    ensures forall i :: 0 <= i < |rows| ==> r[i].id == rows[i].id
    ensures forall i :: 0 <= i < |rows| && rows[i].id == id ==>
      r[i].fields == rows[i].fields.(profilePicture := filename)
    ensures forall i :: 0 <= i < |rows| && rows[i].id != id ==> r[i] == rows[i]
    ensures !HasId(rows, id) ==> r == rows
    ensures Ascending(rows) ==> Ascending(r)
  {
    UpdateById(rows, id, (c: Contact) => c.(profilePicture := filename))
  }

  /** `update_number_phone`, `update_mail`, `update_address`: the value and
      the tag of one row; its id and its contact stay. */
  function EditAttribute(rows: seq<Row<Attribute>>, id: int, value: string, tagId: int): (r: seq<Row<Attribute>>)
    ensures |r| == |rows|
    ensures forall i :: 0 <= i < |rows| ==> r[i].id == rows[i].id && r[i].fields.contactId == rows[i].fields.contactId
    ensures forall i :: 0 <= i < |rows| && rows[i].id == id ==> r[i].fields.value == value && r[i].fields.tagId == tagId
    ensures forall i :: 0 <= i < |rows| && rows[i].id != id ==> r[i] == rows[i]
    ensures !HasId(rows, id) ==> r == rows
    ensures Ascending(rows) ==> Ascending(r)
  {
    UpdateById(rows, id, (a: Attribute) => a.(value := value, tagId := tagId))
  }

  /** `update_tag`: the name of one tag; its category stays. */
  function RenameTag(rows: seq<Row<Tag>>, id: int, name: string): (r: seq<Row<Tag>>)
    ensures |r| == |rows|
    ensures forall i :: 0 <= i < |rows| ==> r[i].id == rows[i].id && r[i].fields.category == rows[i].fields.category
    ensures forall i :: 0 <= i < |rows| && rows[i].id == id ==> r[i].fields.name == name
    ensures forall i :: 0 <= i < |rows| && rows[i].id != id ==> r[i] == rows[i]
    ensures !HasId(rows, id) ==> r == rows
    ensures Ascending(rows) ==> Ascending(r)
  {
    UpdateById(rows, id, (g: Tag) => g.(name := name))
  }

  // ---------------------------------------------------------------------
  // Row removals (DELETE)
  // ---------------------------------------------------------------------

  /** `DELETE FROM phone|mail|address WHERE contact_id = c` */
  function DropByContact(rows: seq<Row<Attribute>>, c: int): (r: seq<Row<Attribute>>)
    ensures forall x :: x in r <==> x in rows && x.fields.contactId != c
    ensures forall i :: 0 <= i < |r| ==> r[i].fields.contactId != c
    ensures Ascending(rows) ==> Ascending(r)
  {
    var keep := (x: Row<Attribute>) => x.fields.contactId != c;
    var r := Filter(rows, keep);
    assert forall i :: 0 <= i < |r| ==> r[i] in r;
    if Ascending(rows) then FilterAscending(rows, keep); r else r
  }

  /** `DELETE FROM group_ WHERE contact_id = c` */
  function DropMembershipsOf(rows: seq<Row<Membership>>, c: int): (r: seq<Row<Membership>>)
    ensures forall x :: x in r <==> x in rows && x.fields.contactId != c
    ensures forall i :: 0 <= i < |r| ==> r[i].fields.contactId != c
    ensures Ascending(rows) ==> Ascending(r)
  {
    var keep := (x: Row<Membership>) => x.fields.contactId != c;
    var r := Filter(rows, keep);
    assert forall i :: 0 <= i < |r| ==> r[i] in r;
    if Ascending(rows) then FilterAscending(rows, keep); r else r
  }

  /** `DELETE FROM group_ WHERE contact_id = c AND tag_id = tag`: every copy
      of the pair goes, and nothing else. */
  function DropPair(rows: seq<Row<Membership>>, c: int, tag: int): (r: seq<Row<Membership>>)
    ensures forall x :: x in r <==> x in rows && x.fields != Membership(c, tag)
    ensures forall i :: 0 <= i < |r| ==> r[i].fields != Membership(c, tag)
    ensures Ascending(rows) ==> Ascending(r)
  {
    var keep := (x: Row<Membership>) => x.fields != Membership(c, tag);
    var r := Filter(rows, keep);
    assert forall i :: 0 <= i < |r| ==> r[i] in r;
    if Ascending(rows) then FilterAscending(rows, keep); r else r
  }

  /** `del_contact_by_id`: the five deletes of one transaction. No row of
      contact, group_, phone, mail or address is left with that contact; the
      rows of other contacts and every tag stay. */
  function DropContact(t: Tables, c: int): (r: Tables)
    ensures r.tag == t.tag
    ensures !HasId(r.contact, c)
    ensures forall x :: x in r.contact <==> x in t.contact && x.id != c
    ensures forall x :: x in r.group <==> x in t.group && x.fields.contactId != c
    ensures forall x :: x in r.phone <==> x in t.phone && x.fields.contactId != c
    ensures forall x :: x in r.mail <==> x in t.mail && x.fields.contactId != c
    ensures forall x :: x in r.address <==> x in t.address && x.fields.contactId != c
    ensures WellKeyed(t) ==> WellKeyed(r)
  {
    Tables(DeleteById(t.contact, c), t.tag, DropByContact(t.phone, c), DropByContact(t.mail, c),
           DropByContact(t.address, c), DropMembershipsOf(t.group, c))
  }

  /** Every `group_` row names a contact that exists. Foreign keys are not
      enforced, so a file need not satisfy this, but the cascade of
      `del_contact_by_id`, `add_contact` and a link to an existing contact
      all keep it. */
  predicate LinksNameContacts(t: Tables) {
    forall k :: 0 <= k < |t.group| ==> HasId(t.contact, t.group[k].fields.contactId)
  }

  /** The cascade takes a contact's links with it, so no link is left dangling. */
  lemma DropContactKeepsLinksNamed(t: Tables, c: int)
    requires LinksNameContacts(t)
    ensures LinksNameContacts(DropContact(t, c))
  {
    var r := DropContact(t, c);
    forall k | 0 <= k < |r.group| ensures HasId(r.contact, r.group[k].fields.contactId) {
      var d := r.group[k].fields.contactId;
      assert r.group[k] in r.group;
      var j :| 0 <= j < |t.group| && t.group[j] == r.group[k];
      var i :| 0 <= i < |t.contact| && t.contact[i].id == d;
      assert t.contact[i] in r.contact;
      var m :| 0 <= m < |r.contact| && r.contact[m] == t.contact[i];
    }
  }

  /** A new contact row removes no contact, and its id is one that exists. */
  lemma InsertContactKeepsLinksNamed(t: Tables, fields: Contact)
    requires LinksNameContacts(t)
    ensures LinksNameContacts(t.(contact := Insert(t.contact, fields)))
    ensures HasId(Insert(t.contact, fields), NextId(t.contact))
  {
    var cs := Insert(t.contact, fields);
    assert cs[|t.contact|].id == NextId(t.contact);
    forall k | 0 <= k < |t.group| ensures HasId(cs, t.group[k].fields.contactId) {
      var i :| 0 <= i < |t.contact| && t.contact[i].id == t.group[k].fields.contactId;
      assert cs[i] == t.contact[i];
    }
  }

  /** Rewriting a contact's columns keeps every id. */
  lemma EditContactKeepsLinksNamed(t: Tables, id: int, firstname: string, lastname: string,
                                   birthday: string, company: string, job: string)
    requires LinksNameContacts(t)
    ensures LinksNameContacts(t.(contact := EditContact(t.contact, id, firstname, lastname, birthday, company, job)))
  {
    var cs := EditContact(t.contact, id, firstname, lastname, birthday, company, job);
    forall k | 0 <= k < |t.group| ensures HasId(cs, t.group[k].fields.contactId) {
      var i :| 0 <= i < |t.contact| && t.contact[i].id == t.group[k].fields.contactId;
      assert cs[i].id == t.contact[i].id;
    }
  }

  /** When every link names a contact, a contact id that no row has (the
      next one, say) is linked to no tag. */
  lemma NoLinkToAbsent(t: Tables, c: int, tag: int)
    requires LinksNameContacts(t) && !HasId(t.contact, c)
    ensures !Linked(t.group, c, tag)
  {
    forall k | 0 <= k < |t.group| ensures t.group[k].fields.contactId != c {
      var i :| 0 <= i < |t.contact| && t.contact[i].id == t.group[k].fields.contactId;
    }
  }

  // ---------------------------------------------------------------------
  // Tag deletion
  // ---------------------------------------------------------------------

  /** The categories `del_tag_by_id` maps to a link table. */
  predicate IsCategory(category: string) {
    category == Utils.GROUP || category == Utils.PHONE || category == Utils.MAIL || category == Utils.ADDRESS
  }

  predicate AttributeUsesTag(rows: seq<Row<Attribute>>, tag: int) {
    exists i :: 0 <= i < |rows| && rows[i].fields.tagId == tag
  }

  predicate MembershipUsesTag(rows: seq<Row<Membership>>, tag: int) {
    exists i :: 0 <= i < |rows| && rows[i].fields.tagId == tag
  }

  /** `SELECT id FROM <link_table[category]> WHERE tag_id = tag` is non-empty. */
  predicate InUse(t: Tables, tag: int, category: string)
    requires IsCategory(category)
  {
    if category == Utils.GROUP then MembershipUsesTag(t.group, tag)
    else if category == Utils.PHONE then AttributeUsesTag(t.phone, tag)
    else if category == Utils.MAIL then AttributeUsesTag(t.mail, tag)
    else AttributeUsesTag(t.address, tag)
  }

  /** `del_tag_by_id(tag, category)`: the answer and the new tables. An
      unknown category raises `KeyError`; a tag still used by the one link
      table of its category is kept and the answer is False; otherwise
      exactly that tag goes and the answer is True. */
  function DelTag(t: Tables, tag: int, category: string): (r: (Result<bool>, Tables))
    ensures !IsCategory(category) ==> r == (Raised("KeyError"), t)
    ensures r.0 == Ok(false) ==> r.1 == t && InUse(t, tag, category)
    ensures r.0 == Ok(true) ==> IsCategory(category) && !InUse(t, tag, category)
    ensures r.0 == Ok(true) ==> r.1 == t.(tag := r.1.tag) && !HasId(r.1.tag, tag)
    ensures r.0 == Ok(true) ==> forall x :: x in r.1.tag <==> x in t.tag && x.id != tag
    ensures IsCategory(category) ==> r.0.Ok?
    ensures WellKeyed(t) ==> WellKeyed(r.1)
  {
    if !IsCategory(category) then (Raised("KeyError"), t)
    else if InUse(t, tag, category) then (Ok(false), t)
    else (Ok(true), t.(tag := DeleteById(t.tag, tag)))
  }

  // ---------------------------------------------------------------------
  // Reads
  // ---------------------------------------------------------------------

  /** `SELECT ... FROM tag WHERE category = category` */
  function TagsIn(rows: seq<Row<Tag>>, category: string): (r: seq<Row<Tag>>)
    ensures forall x :: x in r <==> x in rows && x.fields.category == category
    ensures forall i :: 0 <= i < |r| ==> r[i].fields.category == category
    ensures Ascending(rows) ==> Ascending(r)
  {
    var keep := (x: Row<Tag>) => x.fields.category == category;
    var r := Filter(rows, keep);
    assert forall i :: 0 <= i < |r| ==> r[i] in r;
    if Ascending(rows) then FilterAscending(rows, keep); r else r
  }

  /** The `tag` column of some tag rows. */
  function Names(rows: seq<Row<Tag>>): (r: seq<string>)
    ensures |r| == |rows|
    ensures forall i :: 0 <= i < |rows| ==> r[i] == rows[i].fields.name
  {
    seq(|rows|, i requires 0 <= i < |rows| => rows[i].fields.name)
  }

  /** The `id` column of some tag rows. */
  function Ids(rows: seq<Row<Tag>>): (r: seq<nat>)
    ensures |r| == |rows|
    ensures forall i :: 0 <= i < |rows| ==> r[i] == rows[i].id
  {
    seq(|rows|, i requires 0 <= i < |rows| => rows[i].id)
  }

  /** Both lists of `get_tag_to_category_*` read entry by entry give back
      the rows they came from, and each row is somewhere in them. */
  lemma NamesIds(s: seq<Row<Tag>>)
    ensures forall i :: 0 <= i < |s| ==> s[i] == Row(Ids(s)[i], Tag(Names(s)[i], s[i].fields.category))
    ensures forall x :: x in s ==> exists i :: 0 <= i < |s| && Ids(s)[i] == x.id && Names(s)[i] == x.fields.name
  {
    forall x | x in s ensures exists i :: 0 <= i < |s| && Ids(s)[i] == x.id && Names(s)[i] == x.fields.name {
      var i :| 0 <= i < |s| && s[i] == x;
      assert Ids(s)[i] == x.id && Names(s)[i] == x.fields.name;
    }
  }

  /** `get_tag_to_category_group()`: the (name, id) pairs of the tags of
      category 'group'. */
  function GetTagToCategoryGroup(t: Tables): (r: seq<(string, nat)>)
    ensures forall p :: p in r <==> Row(p.1, Tag(p.0, Utils.GROUP)) in t.tag
    ensures Ascending(t.tag) ==> forall i, j :: 0 <= i < j < |r| ==> r[i].1 < r[j].1
  {
    var s := TagsIn(t.tag, Utils.GROUP);
    var r := seq(|s|, i requires 0 <= i < |s| => (s[i].fields.name, s[i].id));
    assert forall i :: 0 <= i < |s| ==> s[i] == Row(r[i].1, Tag(r[i].0, Utils.GROUP));
    assert forall p: (string, nat) :: Row(p.1, Tag(p.0, Utils.GROUP)) in s ==> p in r by {
      forall p: (string, nat) | Row(p.1, Tag(p.0, Utils.GROUP)) in s ensures p in r {
        var i :| 0 <= i < |s| && s[i] == Row(p.1, Tag(p.0, Utils.GROUP));
        assert r[i] == p;
      }
    }
    r
  }

  /** `get_tag_to_category_phone()`, `_mail()` and `_address()`: a list of
      names and the list of their ids, entry by entry the tags of that
      category, and every tag of that category listed. */
  function GetTagToCategory(t: Tables, category: string): (r: (seq<string>, seq<nat>))
    ensures |r.0| == |r.1|
    ensures forall i :: 0 <= i < |r.1| ==> Row(r.1[i], Tag(r.0[i], category)) in t.tag
    ensures forall x :: x in t.tag && x.fields.category == category ==>
      exists i :: 0 <= i < |r.1| && r.1[i] == x.id && r.0[i] == x.fields.name
    ensures Ascending(t.tag) ==> forall i, j :: 0 <= i < j < |r.1| ==> r.1[i] < r.1[j]
  {
    var s := TagsIn(t.tag, category);
    assert forall i :: 0 <= i < |s| ==> s[i] in s;
    NamesIds(s);
    (Names(s), Ids(s))
  }

  /** Some `group_` row links contact `c` to tag `tag`. */
  predicate Linked(links: seq<Row<Membership>>, c: int, tag: int) {
    exists k :: 0 <= k < |links| && links[k].fields == Membership(c, tag)
  }

  function TagsWithId(tags: seq<Row<Tag>>, id: int): (r: seq<Row<Tag>>)
    ensures forall x :: x in r <==> x in tags && x.id == id
  {
    Filter(tags, (x: Row<Tag>) => x.id == id)
  }

  /** `tag INNER JOIN group_ ON tag.id = group_.tag_id WHERE contact_id = c`:
      the tag rows linked to the contact, once per link. */
  function LinkedTags(tags: seq<Row<Tag>>, links: seq<Row<Membership>>, c: int): (r: seq<Row<Tag>>)
    ensures forall x :: x in r <==> x in tags && Linked(links, c, x.id)
    decreases |links|
  {
    if links == [] then []
    else
      var init := links[..|links| - 1];
      var last := links[|links| - 1];
      var rest := LinkedTags(tags, init, c);
      var here := if last.fields.contactId == c then TagsWithId(tags, last.fields.tagId) else [];
      assert forall x :: x in tags ==> (Linked(links, c, x.id) <==> Linked(init, c, x.id) || last.fields == Membership(c, x.id)) by {
        forall x | x in tags
          ensures Linked(links, c, x.id) <==> Linked(init, c, x.id) || last.fields == Membership(c, x.id)
        {
          if Linked(links, c, x.id) && !(last.fields == Membership(c, x.id)) {
            var k :| 0 <= k < |links| && links[k].fields == Membership(c, x.id);
            assert init[k] == links[k];
          }
          if Linked(init, c, x.id) {
            var k :| 0 <= k < |init| && init[k].fields == Membership(c, x.id);
            assert links[k] == init[k];
          }
        }
      }
      rest + here
  }

  /** `get_tag_to_category_group_by_contact(c)`: the names and ids of the
      'group' tags linked to the contact. */
  function GetTagToCategoryGroupByContact(t: Tables, c: int): (r: (seq<string>, seq<nat>))
    ensures |r.0| == |r.1|
    ensures forall i :: 0 <= i < |r.1| ==>
      Row(r.1[i], Tag(r.0[i], Utils.GROUP)) in t.tag && Linked(t.group, c, r.1[i])
    ensures forall x :: x in t.tag && x.fields.category == Utils.GROUP && Linked(t.group, c, x.id) ==>
      exists i :: 0 <= i < |r.1| && r.1[i] == x.id && r.0[i] == x.fields.name
  {
    var s := TagsIn(LinkedTags(t.tag, t.group, c), Utils.GROUP);
    assert forall i :: 0 <= i < |s| ==> s[i] in s;
    NamesIds(s);
    (Names(s), Ids(s))
  }

  /** `get_contact_group(c)`: the labels of every tag linked to the contact,
      whatever its category, joined with ", ". */
  function GetContactGroup(t: Tables, c: int): (r: string)
    ensures LinkedTags(t.tag, t.group, c) == [] ==> r == ""
    ensures |LinkedTags(t.tag, t.group, c)| == 1 ==> r == LinkedTags(t.tag, t.group, c)[0].fields.name
    ensures r == "" <==> (|LinkedTags(t.tag, t.group, c)| == 0
                          || (|LinkedTags(t.tag, t.group, c)| == 1 && LinkedTags(t.tag, t.group, c)[0].fields.name == ""))
  {
    var labels := Names(LinkedTags(t.tag, t.group, c));
    JoinEmptyIff(labels, ", ");
    Join(labels, ", ")
  }

  /** `get_contact_informations(c)`: `fetchone()` of (profile_picture,
      birthday, company, job), or None when no contact has that id. */
  function GetContactInformations(t: Tables, c: int): (r: Option<(string, string, string, string)>)
    ensures r.None? <==> !HasId(t.contact, c)
    ensures r.Some? ==> exists i :: (0 <= i < |t.contact| && t.contact[i].id == c
      && r.value == (t.contact[i].fields.profilePicture, t.contact[i].fields.birthday,
                     t.contact[i].fields.company, t.contact[i].fields.job))
    decreases |t.contact|
  {
    if t.contact == [] then None
    else if t.contact[0].id == c then
      var f := t.contact[0].fields;
      Some((f.profilePicture, f.birthday, f.company, f.job))
    else
      var r := GetContactInformations(t.(contact := t.contact[1..]), c);
      assert HasId(t.contact, c) <==> HasId(t.contact[1..], c) by {
        if HasId(t.contact, c) {
          var i :| 0 <= i < |t.contact| && t.contact[i].id == c;
          assert t.contact[1..][i - 1] == t.contact[i];
        }
      }
      r
  }

  /** The (id, tag name, value) entries one attribute row contributes to
      its listing: one per tag row carrying its `tag_id`. */
  function JoinTag(a: Row<Attribute>, tags: seq<Row<Tag>>): (r: seq<(nat, string, string)>)
    ensures forall x :: x in r <==> exists j :: 0 <= j < |tags| && tags[j].id == a.fields.tagId
                                             && x == (a.id, tags[j].fields.name, a.fields.value)
  {
    var m := TagsWithId(tags, a.fields.tagId);
    var r := seq(|m|, k requires 0 <= k < |m| => (a.id, m[k].fields.name, a.fields.value));
    assert forall x :: x in r ==> exists j :: 0 <= j < |tags| && tags[j].id == a.fields.tagId
                                       && x == (a.id, tags[j].fields.name, a.fields.value) by {
      forall x | x in r ensures exists j :: 0 <= j < |tags| && tags[j].id == a.fields.tagId
                                       && x == (a.id, tags[j].fields.name, a.fields.value)
      {
        var k :| 0 <= k < |m| && r[k] == x;
        assert m[k] in m;
        var j :| 0 <= j < |tags| && tags[j] == m[k];
      }
    }
    assert forall j :: 0 <= j < |tags| && tags[j].id == a.fields.tagId ==>
      (a.id, tags[j].fields.name, a.fields.value) in r by {
      forall j | 0 <= j < |tags| && tags[j].id == a.fields.tagId
        ensures (a.id, tags[j].fields.name, a.fields.value) in r
      {
        assert tags[j] in m;
        var k :| 0 <= k < |m| && m[k] == tags[j];
        assert r[k] == (a.id, tags[j].fields.name, a.fields.value);
      }
    }
    r
  }

  /** Entry `x` is what the join makes of attribute row `i` and tag row `j`. */
  predicate JoinedAt(rows: seq<Row<Attribute>>, tags: seq<Row<Tag>>, c: int, x: (nat, string, string), i: int, j: int) {
    0 <= i < |rows| && 0 <= j < |tags| && rows[i].fields.contactId == c && tags[j].id == rows[i].fields.tagId
    && x == (rows[i].id, tags[j].fields.name, rows[i].fields.value)
  }

  predicate Listed(rows: seq<Row<Attribute>>, tags: seq<Row<Tag>>, c: int, x: (nat, string, string)) {
    exists i, j :: 0 <= i < |rows| && 0 <= j < |tags| && JoinedAt(rows, tags, c, x, i, j)
  }

  /** `QUERY_PHONE`, `QUERY_MAIL`, `QUERY_ADDRESS` with `contact_id = c`:
      `SELECT <t>.id, tag, <value> FROM <t> INNER JOIN tag ON <t>.tag_id = tag.id`.
      An entry is listed exactly when some row of the contact and some tag
      carrying its `tag_id` produce it; a row whose tag no longer exists is
      not listed. */
  function QueryAttributes(rows: seq<Row<Attribute>>, tags: seq<Row<Tag>>, c: int): (r: seq<(nat, string, string)>)
    ensures forall x :: x in r <==> Listed(rows, tags, c, x)
    decreases |rows|
  {
    if rows == [] then []
    else
      var init := rows[..|rows| - 1];
      var last := rows[|rows| - 1];
      var rest := QueryAttributes(init, tags, c);
      var here := if last.fields.contactId == c then JoinTag(last, tags) else [];
      assert forall x :: x in rest + here ==> Listed(rows, tags, c, x) by {
        forall x | x in rest + here ensures Listed(rows, tags, c, x) {
          if x in rest {
            var i, j :| 0 <= i < |init| && 0 <= j < |tags| && JoinedAt(init, tags, c, x, i, j);
            assert JoinedAt(rows, tags, c, x, i, j);
          } else {
            var j :| 0 <= j < |tags| && tags[j].id == last.fields.tagId
              && x == (last.id, tags[j].fields.name, last.fields.value);
            assert JoinedAt(rows, tags, c, x, |rows| - 1, j);
          }
        }
      }
      assert forall x :: Listed(rows, tags, c, x) ==> x in rest + here by {
        forall x | Listed(rows, tags, c, x) ensures x in rest + here {
          var i, j :| 0 <= i < |rows| && 0 <= j < |tags| && JoinedAt(rows, tags, c, x, i, j);
          if i < |init| {
            assert init[i] == rows[i];
            assert JoinedAt(init, tags, c, x, i, j);
          }
        }
      }
      rest + here
  }

  // ---------------------------------------------------------------------
  // Properties across operations
  // ---------------------------------------------------------------------

  /** After `add_tag(name, category)` the listing of that category gains
      exactly the new tag, at the end, with the id `add_tag` returned. */
  lemma AddTagListed(t: Tables, name: string, category: string)
    ensures GetTagToCategory(t.(tag := Insert(t.tag, Tag(name, category))), category)
            == (GetTagToCategory(t, category).0 + [name], GetTagToCategory(t, category).1 + [NextId(t.tag)])
  {
    var x := Row(NextId(t.tag), Tag(name, category));
    var rows := t.tag + [x];
    assert rows[..|rows| - 1] == t.tag;
    var s := TagsIn(t.tag, category);
    assert TagsIn(rows, category) == s + [x];
    NamesIdsAppend(s, x);
  }

  lemma NamesIdsAppend(s: seq<Row<Tag>>, x: Row<Tag>)
    ensures Names(s + [x]) == Names(s) + [x.fields.name]
    ensures Ids(s + [x]) == Ids(s) + [x.id]
  {
    assert forall i :: 0 <= i < |s| ==> (s + [x])[i] == s[i];
  }

  /** A deleted contact leaves nothing behind in any listing about it, and
      the rows of every other contact are exactly the rows they had. */
  lemma DeletedContactVanishes(t: Tables, c: int)
    ensures GetContactInformations(DropContact(t, c), c) == None
    ensures QueryAttributes(DropContact(t, c).phone, DropContact(t, c).tag, c) == []
    ensures QueryAttributes(DropContact(t, c).mail, DropContact(t, c).tag, c) == []
    ensures QueryAttributes(DropContact(t, c).address, DropContact(t, c).tag, c) == []
    ensures LinkedTags(DropContact(t, c).tag, DropContact(t, c).group, c) == []
    ensures GetContactGroup(DropContact(t, c), c) == ""
  {
    var r := DropContact(t, c);
    assert forall i :: 0 <= i < |r.phone| ==> r.phone[i] in r.phone;
    assert forall i :: 0 <= i < |r.mail| ==> r.mail[i] in r.mail;
    assert forall i :: 0 <= i < |r.address| ==> r.address[i] in r.address;
    QueryEmpty(r.phone, r.tag, c);
    QueryEmpty(r.mail, r.tag, c);
    QueryEmpty(r.address, r.tag, c);
    LinkedEmpty(r.tag, r.group, c);
  }

  lemma QueryEmpty(rows: seq<Row<Attribute>>, tags: seq<Row<Tag>>, c: int)
    requires forall i :: 0 <= i < |rows| ==> rows[i].fields.contactId != c
    ensures QueryAttributes(rows, tags, c) == []
  {
  }

  lemma LinkedEmpty(tags: seq<Row<Tag>>, links: seq<Row<Membership>>, c: int)
    requires forall i :: 0 <= i < |links| ==> links[i].fields.contactId != c
    ensures LinkedTags(tags, links, c) == []
  {
  }

  /** Deleting one contact does not change what is listed for another. */
  lemma OtherContactsKept(t: Tables, c: int, d: int)
    requires d != c
    ensures forall x :: x in QueryAttributes(DropContact(t, c).phone, t.tag, d) <==> x in QueryAttributes(t.phone, t.tag, d)
    ensures forall x :: x in LinkedTags(t.tag, DropContact(t, c).group, d) <==> x in LinkedTags(t.tag, t.group, d)
  {
    var r := DropContact(t, c);
    QueryKeepsContact(t.phone, r.phone, t.tag, d);
    forall x | x in t.tag ensures Linked(r.group, d, x.id) <==> Linked(t.group, d, x.id) {
      if Linked(t.group, d, x.id) {
        var k :| 0 <= k < |t.group| && t.group[k].fields == Membership(d, x.id);
        assert t.group[k] in r.group;
        var k' :| 0 <= k' < |r.group| && r.group[k'] == t.group[k];
      }
      if Linked(r.group, d, x.id) {
        var k :| 0 <= k < |r.group| && r.group[k].fields == Membership(d, x.id);
        assert r.group[k] in r.group;
        var k' :| 0 <= k' < |t.group| && t.group[k'] == r.group[k];
      }
    }
  }

  /** A listing only grows when the contact's rows do. */
  lemma QueryMonotone(a: seq<Row<Attribute>>, b: seq<Row<Attribute>>, tags: seq<Row<Tag>>, d: int)
    requires forall x: Row<Attribute> :: x in a && x.fields.contactId == d ==> x in b
    ensures forall x :: x in QueryAttributes(a, tags, d) ==> x in QueryAttributes(b, tags, d)
  {
    forall x | x in QueryAttributes(a, tags, d) ensures x in QueryAttributes(b, tags, d) {
      var i, j :| 0 <= i < |a| && 0 <= j < |tags| && JoinedAt(a, tags, d, x, i, j);
      assert a[i] in a;
      var i' :| 0 <= i' < |b| && b[i'] == a[i];
      assert JoinedAt(b, tags, d, x, i', j);
    }
  }

  /** Two attribute tables with the same rows for contact `d` list the same
      entries for `d`. */
  lemma QueryKeepsContact(a: seq<Row<Attribute>>, b: seq<Row<Attribute>>, tags: seq<Row<Tag>>, d: int)
    requires forall x: Row<Attribute> :: x.fields.contactId == d ==> (x in a <==> x in b)
    ensures forall x :: x in QueryAttributes(a, tags, d) <==> x in QueryAttributes(b, tags, d)
  {
    QueryMonotone(a, b, tags, d);
    QueryMonotone(b, a, tags, d);
  }

  /** A tag that `del_tag_by_id` removes from the 'phone' category was used
      by no phone row, so every contact's phone listing is unchanged. */
  lemma DelTagKeepsPhoneListing(t: Tables, tag: int, c: int)
    requires DelTag(t, tag, Utils.PHONE).0 == Ok(true)
    ensures forall x :: x in QueryAttributes(t.phone, DelTag(t, tag, Utils.PHONE).1.tag, c)
                     <==> x in QueryAttributes(t.phone, t.tag, c)
  {
    var after := DelTag(t, tag, Utils.PHONE).1.tag;
    forall x | x in QueryAttributes(t.phone, t.tag, c) ensures x in QueryAttributes(t.phone, after, c) {
      var i, j :| 0 <= i < |t.phone| && 0 <= j < |t.tag| && JoinedAt(t.phone, t.tag, c, x, i, j);
      assert t.tag[j].id != tag;
      assert t.tag[j] in t.tag;
      assert t.tag[j] in after;
      var j' :| 0 <= j' < |after| && after[j'] == t.tag[j];
      assert JoinedAt(t.phone, after, c, x, i, j');
    }
    forall x | x in QueryAttributes(t.phone, after, c) ensures x in QueryAttributes(t.phone, t.tag, c) {
      var i, j :| 0 <= i < |t.phone| && 0 <= j < |after| && JoinedAt(t.phone, after, c, x, i, j);
      assert after[j] in after;
      var j' :| 0 <= j' < |t.tag| && t.tag[j'] == after[j];
      assert JoinedAt(t.phone, t.tag, c, x, i, j');
    }
  }

  /** After `del_group_of_contact(c, tag)` the contact is no longer linked to
      that tag, and every other link is kept. */
  lemma DroppedPairUnlinked(links: seq<Row<Membership>>, c: int, tag: int)
    ensures !Linked(DropPair(links, c, tag), c, tag)
    ensures forall d, g :: (d, g) != (c, tag) ==> (Linked(DropPair(links, c, tag), d, g) <==> Linked(links, d, g))
  {
    var r := DropPair(links, c, tag);
    forall d, g | (d, g) != (c, tag) ensures Linked(r, d, g) <==> Linked(links, d, g) {
      if Linked(links, d, g) {
        var k :| 0 <= k < |links| && links[k].fields == Membership(d, g);
        assert links[k] in links;
        var k' :| 0 <= k' < |r| && r[k'] == links[k];
      }
      if Linked(r, d, g) {
        var k :| 0 <= k < |r| && r[k].fields == Membership(d, g);
        assert r[k] in r;
        var k' :| 0 <= k' < |links| && links[k'] == r[k];
      }
    }
  }

  // ---------------------------------------------------------------------
  // The store
  // ---------------------------------------------------------------------

  class Database {
    var contact: seq<Row<Contact>>
    var tag: seq<Row<Tag>>
    var phone: seq<Row<Attribute>>
    var mail: seq<Row<Attribute>>
    var address: seq<Row<Attribute>>
    var group: seq<Row<Membership>>

    function State(): Tables
      reads this
    {
      Tables(contact, tag, phone, mail, address, group)
    }

    predicate Valid()
      reads this
    {
      WellKeyed(State())
    }

    /** `init_database_structure()` on a new file: six empty tables. */
    constructor ()
      ensures Valid() && State() == EMPTY
    {
      contact, tag, phone, mail, address, group := [], [], [], [], [], [];
    }

    /** `add_contact(...)`: one new contact with a fresh id, which is
        returned, and the default picture. */
    method AddContact(firstname: string, lastname: string, birthday: string, company: string, job: string)
      returns (id: nat)
      requires Valid()
      modifies this
      ensures Valid()
      ensures id == NextId(old(contact)) && !HasId(old(contact), id)
      ensures State() == old(State()).(contact := Insert(old(contact),
                           Contact(firstname, lastname, DEFAULT_PICTURE, birthday, company, job)))
    {
      id := NextId(contact);
      contact := Insert(contact, Contact(firstname, lastname, DEFAULT_PICTURE, birthday, company, job));
    }

    method AddPhone(number: string, contactId: int, tagId: int)
      requires Valid()
      modifies this
      ensures Valid()
      ensures State() == old(State()).(phone := Insert(old(phone), Attribute(number, contactId, tagId)))
    {
      phone := Insert(phone, Attribute(number, contactId, tagId));
    }

    method AddMail(mailText: string, contactId: int, tagId: int)
      requires Valid()
      modifies this
      ensures Valid()
      ensures State() == old(State()).(mail := Insert(old(mail), Attribute(mailText, contactId, tagId)))
    {
      mail := Insert(mail, Attribute(mailText, contactId, tagId));
    }

    method AddAddress(addressText: string, contactId: int, tagId: int)
      requires Valid()
      modifies this
      ensures Valid()
      ensures State() == old(State()).(address := Insert(old(address), Attribute(addressText, contactId, tagId)))
    {
      address := Insert(address, Attribute(addressText, contactId, tagId));
    }

    /** `add_tag_group_at_contact`: always a new row, even for a pair the
        table already holds. */
    method AddTagGroupAtContact(idContact: int, idTag: int)
      requires Valid()
      modifies this
      ensures Valid()
      ensures |group| == |old(group)| + 1 && Linked(group, idContact, idTag)
      ensures State() == old(State()).(group := Insert(old(group), Membership(idContact, idTag)))
    {
      group := Insert(group, Membership(idContact, idTag));
      assert group[|group| - 1].fields == Membership(idContact, idTag);
    }

    /** `add_tag(tag, category)`: one new tag, whose fresh id is returned. */
    method AddTag(name: string, category: string) returns (id: nat)
      requires Valid()
      modifies this
      ensures Valid()
      ensures id == NextId(old(tag)) && !HasId(old(tag), id)
      ensures State() == old(State()).(tag := Insert(old(tag), Tag(name, category)))
    {
      id := NextId(tag);
      tag := Insert(tag, Tag(name, category));
    }

    /** `init_database_tag()`: `add_tag` for each default tag, in order. */
    method InitDatabaseTag()
      requires Valid()
      modifies this
      ensures Valid()
      ensures State() == old(State()).(tag := InsertAll(old(tag), DefaultTagRows()))
    {
      var items := DefaultTagRows();
      var k := 0;
      while k < |items|
        invariant 0 <= k <= |items|
        invariant Valid()
        invariant State() == old(State()).(tag := InsertAll(old(tag), items[..k]))
      {
        var _ := AddTag(items[k].name, items[k].category);
        InsertAllStep(old(tag), items, k);
        k := k + 1;
      }
      assert items[..k] == items;
    }

    /** `check_start()`: a missing file is created and seeded; an existing
        one is left as it is. */
    method CheckStart(dataFileExists: bool)
      modifies this
      ensures Valid() || dataFileExists
      ensures dataFileExists ==> State() == old(State())
      ensures !dataFileExists ==> State() == SeededTables()
    {
      if !dataFileExists {
        contact, tag, phone, mail, address, group := [], [], [], [], [], [];
        InitDatabaseTag();
        assert tag == InsertAll([], DefaultTagRows());
      }
    }

    method UpdateTag(name: string, id: int)
      requires Valid()
      modifies this
      ensures Valid()
      ensures State() == old(State()).(tag := RenameTag(old(tag), id, name))
    {
      tag := RenameTag(tag, id, name);
    }

    method UpdateContact(id: int, firstname: string, lastname: string, birthday: string, company: string, job: string)
      requires Valid()
      modifies this
      ensures Valid()
      ensures State() == old(State()).(contact := EditContact(old(contact), id, firstname, lastname, birthday, company, job))
    {
      contact := EditContact(contact, id, firstname, lastname, birthday, company, job);
    }

    method UpdateNumberPhone(number: string, idTag: int, idPhone: int)
      requires Valid()
      modifies this
      ensures Valid()
      ensures State() == old(State()).(phone := EditAttribute(old(phone), idPhone, number, idTag))
    {
      phone := EditAttribute(phone, idPhone, number, idTag);
    }

    method UpdateMail(mailText: string, idTag: int, idMail: int)
      requires Valid()
      modifies this
      ensures Valid()
      ensures State() == old(State()).(mail := EditAttribute(old(mail), idMail, mailText, idTag))
    {
      mail := EditAttribute(mail, idMail, mailText, idTag);
    }

    method UpdateAddress(addressText: string, idTag: int, idAddress: int)
      requires Valid()
      modifies this
      ensures Valid()
      ensures State() == old(State()).(address := EditAttribute(old(address), idAddress, addressText, idTag))
    {
      address := EditAttribute(address, idAddress, addressText, idTag);
    }

    method UpdateProfilPicture(idContact: int, filename: string)
      requires Valid()
      modifies this
      ensures Valid()
      ensures State() == old(State()).(contact := SetPicture(old(contact), idContact, filename))
    {
      contact := SetPicture(contact, idContact, filename);
    }

    method DelGroupOfContact(idContact: int, idTag: int)
      requires Valid()
      modifies this
      ensures Valid()
      ensures State() == old(State()).(group := DropPair(old(group), idContact, idTag))
    {
      group := DropPair(group, idContact, idTag);
    }

    /** `del_contact_by_id`: the cascade, committed once. */
    method DelContactById(idContact: int)
      requires Valid()
      modifies this
      ensures Valid()
      ensures State() == DropContact(old(State()), idContact)
    {
      group := DropMembershipsOf(group, idContact);
      phone := DropByContact(phone, idContact);
      address := DropByContact(address, idContact);
      mail := DropByContact(mail, idContact);
      contact := DeleteById(contact, idContact);
    }

    method DelPhoneById(idPhone: int)
      requires Valid()
      modifies this
      ensures Valid()
      ensures State() == old(State()).(phone := DeleteById(old(phone), idPhone))
    {
      phone := DeleteById(phone, idPhone);
    }

    method DelMailById(idMail: int)
      requires Valid()
      modifies this
      ensures Valid()
      ensures State() == old(State()).(mail := DeleteById(old(mail), idMail))
    {
      mail := DeleteById(mail, idMail);
    }

    method DelAddressById(idAddress: int)
      requires Valid()
      modifies this
      ensures Valid()
      ensures State() == old(State()).(address := DeleteById(old(address), idAddress))
    {
      address := DeleteById(address, idAddress);
    }

    /** `del_tag_by_id(id_tag, category)`. */
    method DelTagById(idTag: int, category: string) returns (r: Result<bool>)
      requires Valid()
      modifies this
      ensures Valid()
      ensures (r, State()) == DelTag(old(State()), idTag, category)
    {
      if !IsCategory(category) {
        return Raised("KeyError");
      }
      if InUse(State(), idTag, category) {
        return Ok(false);
      }
      tag := DeleteById(tag, idTag);
      return Ok(true);
    }
  }
}
