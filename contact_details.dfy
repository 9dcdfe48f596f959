/** The contact dialog of crm/window/contact_details.py: it fills a list of
    every 'group' tag, each item checked when the contact carries that label,
    and on "Valider" stores the normalised contact and adds or removes one
    `group_` link per item whose check state differs from the store. */
module ContactDetails {
  import opened Common
  import opened Rows
  import opened Text
  import opened Dates
  import opened Client
  import opened ListItem
  import Utils
  import MainWindow

  // ---------------------------------------------------------------------
  // Checking and normalising the form
  // ---------------------------------------------------------------------

  /** The texts of the dialog's widgets when "Valider" is clicked;
      `birthdayText` is what the date widget shows, as dd/mm/YYYY. */
  datatype Form = Form(firstname: string, lastname: string, birthdayText: string, company: string, job: string)

  /** The values handed to `update_contact` or `add_contact`. */
  datatype Saved = Saved(firstname: string, lastname: string, birthday: string, company: string, job: string)

  /** What `save_changes` does with a form: stop after the "Incomplet" box,
      stop on the `ValueError` of `strptime`, or store these values. */
  datatype Prepared = Incomplete | BadDate | Ready(values: Saved)

  /** `check_data`: at least one of the two names is filled in. */
  predicate CheckData(firstname: string, lastname: string) {
    firstname != "" || lastname != ""
  }

  /** `save_changes` up to the database call: first name through
      `capitalize()`, last name through `upper()`, the birthday read as
      dd/mm/YYYY and written as YYYY-MM-DD, company and job as typed. */
  function Prepare(form: Form): (r: Prepared)
    ensures r.Incomplete? <==> !CheckData(form.firstname, form.lastname)
    ensures r.BadDate? <==> CheckData(form.firstname, form.lastname) && ParseDisplay(form.birthdayText).None?
    ensures r.Ready? ==> r.values.birthday == FormatIso(ParseDisplay(form.birthdayText).value)
    ensures r.Ready? ==> ParseIso(r.values.birthday) == ParseDisplay(form.birthdayText)
    ensures r.Ready? ==> r.values.firstname == Capitalize(form.firstname) && r.values.lastname == Upper(form.lastname)
    ensures r.Ready? ==> r.values.firstname != "" || r.values.lastname != ""
    ensures r.Ready? ==> r.values.company == form.company && r.values.job == form.job
  {
    if !CheckData(form.firstname, form.lastname) then Incomplete
    else
      match ParseDisplay(form.birthdayText)
      case None => BadDate
      case Some(d) =>
        IsoRoundTrip(d);
        Ready(Saved(Capitalize(form.firstname), Upper(form.lastname), FormatIso(d), form.company, form.job))
  }

  /** Reopening the dialog on a stored contact and validating it unchanged
      stores the same values again: the normalisation is idempotent and the
      birthday survives the widget's dd/mm/YYYY round trip. */
  lemma ResaveUnchanged(form: Form)
    requires Prepare(form).Ready?
    ensures var v := Prepare(form).values;
            var d := ParseIso(v.birthday).value;
            Prepare(Form(v.firstname, v.lastname, FormatDisplay(d), v.company, v.job)) == Ready(v)
  {
    var v := Prepare(form).values;
    var d := ParseIso(v.birthday).value;
    DisplayRoundTrip(d);
    IsoRoundTrip(d);
    CaseMappingIdempotent(form.firstname);
    CaseMappingIdempotent(form.lastname);
  }

  /** The date a new contact starts with. */
  const DEFAULT_BIRTHDAY: Date := Date(1899, 12, 31)

  /** A new contact whose date was left alone is stored with the sentinel
      birthday, which the main window shows as blank. */
  lemma DefaultBirthdayBlank(form: Form, today: Date)
    requires CheckData(form.firstname, form.lastname)
    requires form.birthdayText == FormatDisplay(DEFAULT_BIRTHDAY)
    ensures Prepare(form).Ready? && Prepare(form).values.birthday == MainWindow.SENTINEL_BIRTHDAY
    ensures MainWindow.BirthdayLabel(Prepare(form).values.birthday, today) == Ok("")
  {
    DisplayRoundTrip(DEFAULT_BIRTHDAY);
    MainWindow.SentinelBlank(today);
  }

  // ---------------------------------------------------------------------
  // The group list
  // ---------------------------------------------------------------------

  /** No two 'group' tags share a label. */
  predicate UniqueGroupNames(t: Tables) {
    forall i, j :: (0 <= i < |t.tag| && 0 <= j < |t.tag| && t.tag[i].fields == Tag(t.tag[j].fields.name, Utils.GROUP)
      && t.tag[j].fields.category == Utils.GROUP) ==> t.tag[i].id == t.tag[j].id
  }

  /** An item starts checked when its label is among the contact's group
      labels; its id is among `contact_ids` exactly when the contact is
      linked to it. When no two group tags share a label, the two agree. */
  lemma InitialCheckedIffLinked(t: Tables, c: int)
    ensures forall p :: p in GetTagToCategoryGroup(t) ==>
      (p.1 in GetTagToCategoryGroupByContact(t, c).1 <==> Linked(t.group, c, p.1))
    ensures UniqueGroupNames(t) ==> forall p :: p in GetTagToCategoryGroup(t) ==>
      (p.0 in GetTagToCategoryGroupByContact(t, c).0 <==> Linked(t.group, c, p.1))
  {
    forall p | p in GetTagToCategoryGroup(t)
      ensures p.1 in GetTagToCategoryGroupByContact(t, c).1 <==> Linked(t.group, c, p.1)
      ensures UniqueGroupNames(t) ==> (p.0 in GetTagToCategoryGroupByContact(t, c).0 <==> Linked(t.group, c, p.1))
    {
      ItemCheckedIffLinked(t, c, p.0, p.1);
    }
  }

  lemma ItemCheckedIffLinked(t: Tables, c: int, name: string, id: nat)
    requires Row(id, Tag(name, Utils.GROUP)) in t.tag
    ensures id in GetTagToCategoryGroupByContact(t, c).1 <==> Linked(t.group, c, id)
    ensures UniqueGroupNames(t) ==> (name in GetTagToCategoryGroupByContact(t, c).0 <==> Linked(t.group, c, id))
  {
    var r := GetTagToCategoryGroupByContact(t, c);
    if Linked(t.group, c, id) {
      ListedWhenLinked(t, c, name, id);
    }
    if id in r.1 {
      var i :| 0 <= i < |r.1| && r.1[i] == id;
    }
    if UniqueGroupNames(t) && name in r.0 {
      var i :| 0 <= i < |r.0| && r.0[i] == name;
      SameLabelSameId(t, r.1[i], id, name);
    }
  }

  lemma ListedWhenLinked(t: Tables, c: int, name: string, id: nat)
    requires Row(id, Tag(name, Utils.GROUP)) in t.tag && Linked(t.group, c, id)
    ensures id in GetTagToCategoryGroupByContact(t, c).1 && name in GetTagToCategoryGroupByContact(t, c).0
  {
    var r := GetTagToCategoryGroupByContact(t, c);
    var x := Row(id, Tag(name, Utils.GROUP));
    var i :| 0 <= i < |r.1| && r.1[i] == x.id && r.0[i] == x.fields.name;
    assert r.0[i] in r.0 && r.1[i] in r.1;
  }

  lemma SameLabelSameId(t: Tables, a: nat, b: nat, name: string)
    requires UniqueGroupNames(t)
    requires Row(a, Tag(name, Utils.GROUP)) in t.tag && Row(b, Tag(name, Utils.GROUP)) in t.tag
    ensures a == b
  {
    var i :| 0 <= i < |t.tag| && t.tag[i] == Row(a, Tag(name, Utils.GROUP));
    var j :| 0 <= j < |t.tag| && t.tag[j] == Row(b, Tag(name, Utils.GROUP));
    assert t.tag[i].fields == Tag(t.tag[j].fields.name, Utils.GROUP);
  }

  // ---------------------------------------------------------------------
  // The membership calls of save_changes
  // ---------------------------------------------------------------------

  /** What `save_changes` reads of a list item. */
  datatype ItemState = ItemState(id: int, checked: Option<bool>)

  /** A call to `add_tag_group_at_contact` or to `del_group_of_contact`. */
  datatype Call = Link(tagId: int) | Unlink(tagId: int)

  /** The call made for one item, if any. */
  function CallFor(item: ItemState, contactIds: seq<nat>): seq<Call> {
    if Truthy(item.checked) && item.id !in contactIds then [Link(item.id)]
    else if !Truthy(item.checked) && item.id in contactIds then [Unlink(item.id)]
    else []
  }

  /** The calls of the loop, in item order. */
  function PlanCalls(items: seq<ItemState>, contactIds: seq<nat>): seq<Call>
    decreases |items|
  {
    if items == [] then [] else PlanCalls(items[..|items| - 1], contactIds) + CallFor(items[|items| - 1], contactIds)
  }

  /** The loop links every checked item that was not linked, unlinks every
      unchecked item that was, and makes no other call. */
  lemma {:induction false} PlanCallsIff(items: seq<ItemState>, contactIds: seq<nat>)
    ensures forall x :: Link(x) in PlanCalls(items, contactIds) <==>
      exists i :: 0 <= i < |items| && items[i].id == x && Truthy(items[i].checked) && x !in contactIds
    ensures forall x :: Unlink(x) in PlanCalls(items, contactIds) <==>
      exists i :: 0 <= i < |items| && items[i].id == x && !Truthy(items[i].checked) && x in contactIds
    decreases |items|
  {
    if items != [] {
      var init := items[..|items| - 1];
      PlanCallsIff(init, contactIds);
      assert forall i :: 0 <= i < |init| ==> init[i] == items[i];
    }
  }

  /** A dialog saved without a click on the list makes no membership call. */
  lemma {:induction false} NothingToggledNoCalls(items: seq<ItemState>, contactIds: seq<nat>)
    requires forall i :: 0 <= i < |items| ==> (Truthy(items[i].checked) <==> items[i].id in contactIds)
    ensures PlanCalls(items, contactIds) == []
    decreases |items|
  {
    if items != [] {
      NothingToggledNoCalls(items[..|items| - 1], contactIds);
    }
  }

  /** One call against the store, for contact `c`. */
  function Apply(t: Tables, c: int, call: Call): (r: Tables)
    ensures r.contact == t.contact && r.tag == t.tag && r.phone == t.phone
    ensures r.mail == t.mail && r.address == t.address
    ensures WellKeyed(t) ==> WellKeyed(r)
  {
    match call
    case Link(x) => t.(group := Insert(t.group, Membership(c, x)))
    case Unlink(x) => t.(group := DropPair(t.group, c, x))
  }

  function ApplyCalls(t: Tables, c: int, calls: seq<Call>): (r: Tables)
    ensures r.contact == t.contact && r.tag == t.tag && r.phone == t.phone
    ensures r.mail == t.mail && r.address == t.address
    ensures WellKeyed(t) ==> WellKeyed(r)
    decreases |calls|
  {
    if calls == [] then t else Apply(ApplyCalls(t, c, calls[..|calls| - 1]), c, calls[|calls| - 1])
  }

  /** A call changes at most the one link it names. */
  lemma ApplyLinked(t: Tables, c: int, call: Call)
    ensures call.Link? ==> Linked(Apply(t, c, call).group, c, call.tagId)
    ensures call.Unlink? ==> !Linked(Apply(t, c, call).group, c, call.tagId)
    ensures forall d, g :: (d, g) != (c, call.tagId) ==>
      (Linked(Apply(t, c, call).group, d, g) <==> Linked(t.group, d, g))
  {
    match call
    case Link(x) =>
      var r := Apply(t, c, call).group;
      assert r == t.group + [Row(NextId(t.group), Membership(c, x))];
      assert r[|t.group|].fields == Membership(c, x);
      forall d, g | (d, g) != (c, x) ensures Linked(r, d, g) <==> Linked(t.group, d, g) {
        if Linked(t.group, d, g) {
          var k :| 0 <= k < |t.group| && t.group[k].fields == Membership(d, g);
          assert r[k] == t.group[k];
        }
        if Linked(r, d, g) {
          var k :| 0 <= k < |r| && r[k].fields == Membership(d, g);
          assert k < |t.group|;
          assert r[k] == t.group[k];
        }
      }
    case Unlink(x) =>
      DroppedPairUnlinked(t.group, c, x);
  }

  /** Links of contact `c` after the first `k` items: the checked state for
      those, the old link for the others. */
  ghost predicate LinksAfter(g: seq<Row<Membership>>, t: Tables, c: int, items: seq<ItemState>, k: int) {
    forall i :: 0 <= i < |items| ==>
      (Linked(g, c, items[i].id) <==> if i < k then Truthy(items[i].checked) else Linked(t.group, c, items[i].id))
  }

  /** Every link not of contact `c` to one of the first `k` items is as before. */
  ghost predicate OthersKept(g: seq<Row<Membership>>, t: Tables, c: int, items: seq<ItemState>, k: int) {
    forall d, h :: (d != c || forall i :: 0 <= i < k && i < |items| ==> items[i].id != h) ==>
      (Linked(g, d, h) <==> Linked(t.group, d, h))
  }

  lemma ApplyCallsAppend(t: Tables, c: int, calls: seq<Call>, call: Call)
    ensures ApplyCalls(t, c, calls + [call]) == Apply(ApplyCalls(t, c, calls), c, call)
  {
    assert (calls + [call])[..|calls|] == calls;
  }

  /** One more item adds its own call to those of the items before it. */
  lemma LoopStep(start: Tables, c: int, states: seq<ItemState>, contactIds: seq<nat>, k: nat)
    requires k < |states|
    ensures ApplyCalls(start, c, PlanCalls(states[..k + 1], contactIds))
         == ApplyCalls(ApplyCalls(start, c, PlanCalls(states[..k], contactIds)), c, CallFor(states[k], contactIds))
  {
    assert states[..k + 1][..k] == states[..k];
    var before := PlanCalls(states[..k], contactIds);
    var step := CallFor(states[k], contactIds);
    assert PlanCalls(states[..k + 1], contactIds) == before + step;
    if step == [] {
      assert before + step == before;
    } else {
      assert step == [step[0]];
      ApplyCallsAppend(start, c, before, step[0]);
      assert step[..0] == [];
    }
  }

  /** The call made for one item leaves the contact linked to it exactly
      when it is checked, and changes no other link. */
  lemma StepEffect(mid: Tables, c: int, item: ItemState, contactIds: seq<nat>)
    requires item.id in contactIds <==> Linked(mid.group, c, item.id)
    ensures var after := ApplyCalls(mid, c, CallFor(item, contactIds));
      (Linked(after.group, c, item.id) <==> Truthy(item.checked))
      && forall d, h :: (d, h) != (c, item.id) ==> (Linked(after.group, d, h) <==> Linked(mid.group, d, h))
  {
    var step := CallFor(item, contactIds);
    if step == [] {
      assert ApplyCalls(mid, c, step) == mid;
    } else {
      var call := step[0];
      assert step == [call];
      assert ApplyCalls(mid, c, step) == Apply(mid, c, call) by {
        assert step[..0] == [];
        assert ApplyCalls(mid, c, step[..0]) == mid;
      }
      ApplyLinked(mid, c, call);
    }
  }

  /** The call of item `k - 1` moves both predicates from `k - 1` to `k`. */
  lemma PlanStep(t: Tables, mid: Tables, c: int, items: seq<ItemState>, contactIds: seq<nat>, k: nat)
    requires 0 < k <= |items|
    requires forall i, j :: 0 <= i < j < |items| ==> items[i].id != items[j].id
    requires forall i :: 0 <= i < |items| ==> (items[i].id in contactIds <==> Linked(t.group, c, items[i].id))
    requires LinksAfter(mid.group, t, c, items, k - 1) && OthersKept(mid.group, t, c, items, k - 1)
    ensures var after := ApplyCalls(mid, c, CallFor(items[k - 1], contactIds));
            LinksAfter(after.group, t, c, items, k) && OthersKept(after.group, t, c, items, k)
  {
    var x := items[k - 1].id;
    var after := ApplyCalls(mid, c, CallFor(items[k - 1], contactIds));
    StepEffect(mid, c, items[k - 1], contactIds);
    forall i | 0 <= i < |items|
      ensures Linked(after.group, c, items[i].id)
              <==> if i < k then Truthy(items[i].checked) else Linked(t.group, c, items[i].id)
    {
      if i != k - 1 {
        assert items[i].id != x;
      }
    }
    forall d, h | d != c || forall i :: 0 <= i < k && i < |items| ==> items[i].id != h
      ensures Linked(after.group, d, h) <==> Linked(t.group, d, h)
    {
      if d == c {
        assert items[k - 1].id != h;
      }
    }
  }

  /** The calls of the first `k` items, applied to the store, link the
      contact to exactly the checked ones among them and leave every other
      link as it was. */
  lemma {:induction false} PlanPrefix(t: Tables, c: int, items: seq<ItemState>, contactIds: seq<nat>, k: nat)
    requires k <= |items|
    requires forall i, j :: 0 <= i < j < |items| ==> items[i].id != items[j].id
    requires forall i :: 0 <= i < |items| ==> (items[i].id in contactIds <==> Linked(t.group, c, items[i].id))
    ensures var g := ApplyCalls(t, c, PlanCalls(items[..k], contactIds)).group;
            LinksAfter(g, t, c, items, k) && OthersKept(g, t, c, items, k)
  {
    if k > 0 {
      PlanPrefix(t, c, items, contactIds, k - 1);
      var mid := ApplyCalls(t, c, PlanCalls(items[..k - 1], contactIds));
      assert LinksAfter(mid.group, t, c, items, k - 1) && OthersKept(mid.group, t, c, items, k - 1);
      PlanStep(t, mid, c, items, contactIds, k);
      LoopStep(t, c, items, contactIds, k - 1);
    } else {
      assert PlanCalls(items[..0], contactIds) == [];
    }
  }

  /** After the loop the contact is linked to exactly the checked items and
      every link of another tag or another contact is the same as before. */
  lemma SaveMakesLinksMatch(t: Tables, c: int, items: seq<ItemState>, contactIds: seq<nat>)
    requires forall i, j :: 0 <= i < j < |items| ==> items[i].id != items[j].id
    requires forall i :: 0 <= i < |items| ==> (items[i].id in contactIds <==> Linked(t.group, c, items[i].id))
    ensures var r := ApplyCalls(t, c, PlanCalls(items, contactIds));
      (forall i :: 0 <= i < |items| ==> (Linked(r.group, c, items[i].id) <==> Truthy(items[i].checked)))
      && (forall d, g :: (d != c || forall i :: 0 <= i < |items| ==> items[i].id != g) ==>
           (Linked(r.group, d, g) <==> Linked(t.group, d, g)))
  {
    PlanPrefix(t, c, items, contactIds, |items|);
    assert items[..|items|] == items;
    var g := ApplyCalls(t, c, PlanCalls(items, contactIds)).group;
    assert LinksAfter(g, t, c, items, |items|) && OthersKept(g, t, c, items, |items|);
  }

  /** In adding mode the dialog reads `contact_ids` for contact 0 and the
      new contact takes the next id. When every link names an existing
      contact and no contact has id 0, neither id is linked to any tag, so
      the empty reading is accurate for the new contact: the premise of
      `SaveMakesLinksMatch` holds. */
  lemma FreshContactUnlinked(t: Tables, v: Saved, items: seq<ItemState>)
    requires LinksNameContacts(t) && !HasId(t.contact, 0)
    ensures GetTagToCategoryGroupByContact(t, 0).1 == []
    ensures var p := StoreContact(t, false, 0, v);
      forall i :: 0 <= i < |items| ==>
        (items[i].id in GetTagToCategoryGroupByContact(t, 0).1 <==> Linked(p.0.group, p.1, items[i].id))
  {
    var ids := GetTagToCategoryGroupByContact(t, 0).1;
    if ids != [] {
      NoLinkToAbsent(t, 0, ids[0]);
    }
    forall i | 0 <= i < |items| ensures !Linked(t.group, NextId(t.contact), items[i].id) {
      NoLinkToAbsent(t, NextId(t.contact), items[i].id);
    }
  }

  /** Adding mode unlinks nothing: `contact_ids` is empty, so the loop only
      adds links. A `group_` row already carrying the new id, left by a link
      to a contact id that no row had, therefore stays, and the new contact
      inherits it. */
  lemma {:induction false} AddingModeKeepsLinks(t: Tables, c: int, items: seq<ItemState>)
    ensures forall d, g :: Linked(t.group, d, g) ==> Linked(ApplyCalls(t, c, PlanCalls(items, [])).group, d, g)
    decreases |items|
  {
    if items != [] {
      var init := items[..|items| - 1];
      AddingModeKeepsLinks(t, c, init);
      var before := PlanCalls(init, []);
      var step := CallFor(items[|items| - 1], []);
      assert PlanCalls(items, []) == before + step;
      if step == [] {
        assert before + step == before;
      } else {
        assert step == [step[0]] && step[0].Link?;
        ApplyCallsAppend(t, c, before, step[0]);
        ApplyLinked(ApplyCalls(t, c, before), c, step[0]);
      }
    }
  }

  /** The calls for an existing contact keep every link naming a contact. */
  lemma {:induction false} ApplyCallsKeepLinksNamed(t: Tables, c: int, calls: seq<Call>)
    requires LinksNameContacts(t) && HasId(t.contact, c)
    ensures LinksNameContacts(ApplyCalls(t, c, calls))
    decreases |calls|
  {
    if calls != [] {
      var mid := ApplyCalls(t, c, calls[..|calls| - 1]);
      ApplyCallsKeepLinksNamed(t, c, calls[..|calls| - 1]);
      var r := Apply(mid, c, calls[|calls| - 1]);
      forall k | 0 <= k < |r.group| ensures HasId(r.contact, r.group[k].fields.contactId) {
        match calls[|calls| - 1]
        case Link(x) =>
          if k < |mid.group| {
            assert r.group[k] == mid.group[k];
          } else {
            assert r.group[k].fields.contactId == c;
          }
        case Unlink(x) =>
          assert r.group[k] in r.group;
          var j :| 0 <= j < |mid.group| && mid.group[j] == r.group[k];
      }
    }
  }

  /** Saving the dialog keeps every link naming a contact, in both modes,
      when the contact being modified exists. */
  lemma SaveKeepsLinksNamed(t: Tables, modifyMode: bool, id: int, v: Saved, states: seq<ItemState>, ids: seq<nat>)
    requires LinksNameContacts(t) && (modifyMode ==> HasId(t.contact, id))
    ensures var p := StoreContact(t, modifyMode, id, v);
      LinksNameContacts(ApplyCalls(p.0, p.1, PlanCalls(states, ids)))
  {
    var p := StoreContact(t, modifyMode, id, v);
    if modifyMode {
      EditContactKeepsLinksNamed(t, id, v.firstname, v.lastname, v.birthday, v.company, v.job);
      var i :| 0 <= i < |t.contact| && t.contact[i].id == id;
      assert p.0.contact[i].id == id;
    } else {
      InsertContactKeepsLinksNamed(t, SavedContact(v));
    }
    ApplyCallsKeepLinksNamed(p.0, p.1, PlanCalls(states, ids));
  }

  // ---------------------------------------------------------------------
  // The dialog
  // ---------------------------------------------------------------------

  /** The id and check flag of every list item, in list order. */
  function StatesOf(items: seq<CustomListWidgetItem>): (r: seq<ItemState>)
    reads items
    ensures |r| == |items| && forall i :: 0 <= i < |items| ==> r[i] == ItemState(items[i].id, items[i].isChecked)
    decreases |items|
  {
    if items == [] then [] else StatesOf(items[..|items| - 1]) + [ItemState(items[|items| - 1].id, items[|items| - 1].isChecked)]
  }

  lemma StatesOfAppend(items: seq<CustomListWidgetItem>, item: CustomListWidgetItem)
    ensures StatesOf(items + [item]) == StatesOf(items) + [ItemState(item.id, item.isChecked)]
  {
    assert (items + [item])[..|items|] == items;
  }

  function SavedContact(v: Saved): Contact {
    Contact(v.firstname, v.lastname, DEFAULT_PICTURE, v.birthday, v.company, v.job)
  }

  /** The loop of `modify_widgets`: one new item per (label, id), checked
      when its label is among `labels`. */
  method MakeItems(all: seq<(string, nat)>, labels: seq<string>) returns (items: seq<CustomListWidgetItem>)
    ensures |items| == |all|
    ensures forall i :: 0 <= i < |all| ==> fresh(items[i])
    ensures forall i :: 0 <= i < |all| ==>
      items[i].text == all[i].0 && items[i].id == all[i].1 && items[i].isChecked == Some(all[i].0 in labels)
  {
    items := [];
    var k := 0;
    while k < |all|
      invariant 0 <= k <= |all| && |items| == k
      invariant forall i :: 0 <= i < k ==> fresh(items[i])
      invariant forall i :: 0 <= i < k ==>
        items[i].text == all[i].0 && items[i].id == all[i].1 && items[i].isChecked == Some(all[i].0 in labels)
    {
      var item := new CustomListWidgetItem(all[k].0, all[k].1);
      if all[k].0 in labels {
        item.Checked();
      } else {
        item.Unchecked();
      }
      items := items + [item];
      k := k + 1;
    }
  }

  /** The loop of `save_changes` over the list items, for contact `c`. */
  method SaveGroups(db: Database, items: seq<CustomListWidgetItem>, c: int, ids: seq<nat>)
    requires db.Valid()
    modifies db
    ensures db.Valid()
    ensures db.State() == ApplyCalls(old(db.State()), c, PlanCalls(old(StatesOf(items)), ids))
  {
    ghost var states := StatesOf(items);
    ghost var start := db.State();
    var k := 0;
    while k < |items|
      invariant 0 <= k <= |items| && db.Valid()
      invariant forall i :: 0 <= i < |items| ==> states[i] == ItemState(items[i].id, items[i].isChecked)
      invariant db.State() == ApplyCalls(start, c, PlanCalls(states[..k], ids))
    {
      LoopStep(start, c, states, ids, k);
      SaveItem(db, items[k], c, ids);
      k := k + 1;
    }
    assert states[..|items|] == states;
  }

  /** One turn of the loop: the call, if any, for one item. */
  method SaveItem(db: Database, item: CustomListWidgetItem, c: int, ids: seq<nat>)
    requires db.Valid()
    modifies db
    ensures db.Valid()
    ensures db.State() == ApplyCalls(old(db.State()), c, CallFor(ItemState(item.id, item.isChecked), ids))
  {
    if Truthy(item.isChecked) && item.id !in ids {
      db.AddTagGroupAtContact(c, item.id);
      assert [Link(item.id)][..0] == [];
    } else if !Truthy(item.isChecked) && item.id in ids {
      db.DelGroupOfContact(c, item.id);
      assert [Unlink(item.id)][..0] == [];
    }
  }

  /** The store and the contact id after `update_contact` (modify mode) or
      `add_contact` (adding mode, which hands back the new id). */
  function StoreContact(t: Tables, modifyMode: bool, id: int, v: Saved): (Tables, int) {
    if modifyMode then (t.(contact := EditContact(t.contact, id, v.firstname, v.lastname, v.birthday, v.company, v.job)), id)
    else (t.(contact := Insert(t.contact, SavedContact(v))), NextId(t.contact))
  }

  class DetailsContact {
    var idContact: int
    var modeAction: string
    var allItems: seq<(string, nat)>
    var contactIds: seq<nat>
    var lwGroup: seq<CustomListWidgetItem>

    /** `__init__` with `modify_widgets`: one item per 'group' tag, checked
        when its label is one of the contact's group labels. */
    constructor (modeAction: string, idContact: int, db: Database)
      ensures this.modeAction == modeAction && this.idContact == idContact
      ensures allItems == GetTagToCategoryGroup(db.State())
      ensures contactIds == GetTagToCategoryGroupByContact(db.State(), idContact).1
      ensures |lwGroup| == |allItems|
      ensures forall i :: 0 <= i < |lwGroup| ==>
        lwGroup[i].text == allItems[i].0 && lwGroup[i].id == allItems[i].1
        && lwGroup[i].isChecked == Some(allItems[i].0 in GetTagToCategoryGroupByContact(db.State(), idContact).0)
    {
      var all := GetTagToCategoryGroup(db.State());
      var byContact := GetTagToCategoryGroupByContact(db.State(), idContact);
      var items := MakeItems(all, byContact.0);
      this.modeAction, this.idContact := modeAction, idContact;
      allItems, contactIds, lwGroup := all, byContact.1, items;
    }

    /** `add_tag`: a new tag in the store, appended to `all_items` and to the
        list as an item that is already checked. */
    method AddTag(db: Database, category: string, newTag: string)
      requires db.Valid()
      modifies this`allItems, this`lwGroup, db
      ensures db.Valid()
      ensures db.State() == old(db.State()).(tag := Insert(old(db.tag), Tag(newTag, category)))
      ensures allItems == old(allItems) + [(newTag, NextId(old(db.tag)))]
      ensures |lwGroup| == |old(lwGroup)| + 1 && lwGroup[..|old(lwGroup)|] == old(lwGroup)
      ensures fresh(lwGroup[|lwGroup| - 1]) && lwGroup[|lwGroup| - 1].text == newTag
      ensures StatesOf(lwGroup) == old(StatesOf(lwGroup)) + [ItemState(NextId(old(db.tag)), Some(true))]
      ensures idContact == old(idContact) && modeAction == old(modeAction) && contactIds == old(contactIds)
    {
      var id := db.AddTag(newTag, category);
      allItems := allItems + [(newTag, id)];
      AppendChecked(newTag, id);
    }

    /** The new item of `add_tag`, appended to the list already checked. */
    method AppendChecked(name: string, id: nat)
      modifies this`lwGroup
      ensures |lwGroup| == |old(lwGroup)| + 1 && lwGroup[..|old(lwGroup)|] == old(lwGroup)
      ensures fresh(lwGroup[|lwGroup| - 1]) && lwGroup[|lwGroup| - 1].text == name
      ensures StatesOf(lwGroup) == old(StatesOf(lwGroup)) + [ItemState(id, Some(true))]
    {
      ghost var items := lwGroup;
      ghost var before := StatesOf(items);
      var item := new CustomListWidgetItem(name, id);
      item.Checked();
      assert StatesOf(items) == before;
      lwGroup := lwGroup + [item];
      assert lwGroup[..|lwGroup| - 1] == items;
      StatesOfAppend(items, item);
    }

    /** `save_changes` with the widgets' texts: nothing is written when
        `check_data` refuses or the date does not parse; otherwise the
        contact is updated (or added, whose new id the dialog keeps) and
        then one membership call is made per item that needs one. */
    method SaveChanges(db: Database, form: Form) returns (outcome: Prepared)
      requires db.Valid()
      modifies this`idContact, db
      ensures db.Valid()
      ensures outcome == Prepare(form)
      ensures !outcome.Ready? ==> db.State() == old(db.State()) && idContact == old(idContact)
      ensures outcome.Ready? ==>
        idContact == StoreContact(old(db.State()), modeAction == "modify", old(idContact), outcome.values).1
      ensures outcome.Ready? ==>
        db.State() == ApplyCalls(StoreContact(old(db.State()), modeAction == "modify", old(idContact), outcome.values).0,
                                 idContact, PlanCalls(old(StatesOf(lwGroup)), contactIds))
    {
      outcome := Prepare(form);
      if outcome.Ready? {
        Store(db, outcome.values);
      }
    }

    /** What `save_changes` does once the form is accepted: store the
        contact, then make the membership calls for its id. */
    method Store(db: Database, v: Saved)
      requires db.Valid()
      modifies this`idContact, db
      ensures db.Valid()
      ensures idContact == StoreContact(old(db.State()), modeAction == "modify", old(idContact), v).1
      ensures db.State() == ApplyCalls(StoreContact(old(db.State()), modeAction == "modify", old(idContact), v).0,
                                       idContact, PlanCalls(old(StatesOf(lwGroup)), contactIds))
    {
      ghost var states := StatesOf(lwGroup);
      ghost var planned := StoreContact(db.State(), modeAction == "modify", idContact, v);
      SaveContact(db, v);
      assert db.State() == planned.0 && idContact == planned.1;
      assert StatesOf(lwGroup) == states;
      SaveGroups(db, lwGroup, idContact, contactIds);
      assert db.State() == ApplyCalls(planned.0, idContact, PlanCalls(states, contactIds));
    }

    /** The `if self.mode_action == "modify"` step of `save_changes`. */
    method SaveContact(db: Database, v: Saved)
      requires db.Valid()
      modifies this`idContact, db
      ensures db.Valid()
      ensures (db.State(), idContact) == StoreContact(old(db.State()), modeAction == "modify", old(idContact), v)
    {
      if modeAction == "modify" {
        db.UpdateContact(idContact, v.firstname, v.lastname, v.birthday, v.company, v.job);
      } else {
        idContact := db.AddContact(v.firstname, v.lastname, v.birthday, v.company, v.job);
      }
    }
  }
}
