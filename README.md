# crm_Docstring contact book, modelled in Dafny

crm is a desktop address book. Contacts, their phone numbers, e-mail
addresses and postal addresses, and the tags that label them live in one
SQLite file with six tables; windows read and write it through the small
functions of `crm/database/client.py`. This project models that store and
the rules the windows apply on top of it:

- `client.dfy` (module `Client`): the six tables as a `Tables` value, the
  `Database` class whose six `seq` fields the `add_*`, `update_*` and
  `del_*` methods reassign, and every `get_*` and `QUERY_*` read as a
  function of the tables. A fresh row id is the largest id plus one, or 1
  in an empty table (`INTEGER PRIMARY KEY` without `AUTOINCREMENT`), so an
  id can come back after the largest row is deleted. Foreign keys are
  declared but not enforced, so dangling `contact_id`/`tag_id` values are
  legal states. The five deletes of `del_contact_by_id` share one commit
  and are one atomic step. `del_tag_by_id` only looks in the one link table
  its category names.
- `rows.dfy` (`Rows`): rows as (id, fields), the id allocation, and the
  generic insert, update-by-id, delete-by-id and filter.
- `main_window.dfy` (`MainWindow`): the contact search of
  `update_tv_contact`, proved equal to a reference reading of its
  `LEFT OUTER JOIN ... WHERE ... LIKE` query; the picture file name; the
  birthday line and its `1899-12-31` sentinel; the delete confirmation
  text.
- `contact_details.dfy` (`ContactDetails`): the contact dialog —
  `check_data`, the name normalisation and date reformatting of
  `save_changes`, the initial check state of each group item, `add_tag`,
  and the membership loop, proved to issue exactly the calls that make the
  contact's links equal to the checked items.
- `input_tag.dfy` (`InputTag`): the duplicate-tag check `check_tag` and the
  accept/capitalise step of `save_input_user`.
- `list_item.dfy` (`ListItem`): the list item with its three-state
  `is_checked` flag.
- `utils.dfy` (`Utils`): `DEFAULT_TAGS`, the age computation and the French
  phone-number check, the last as a left-to-right recogniser proved equal
  to a construct-by-construct reading of its regular expression.
- `text.dfy`, `dates.dfy`, `common.dfy`: Python string operations,
  `strptime`/`strftime` for `%Y-%m-%d` and `%d/%m/%Y`, and `Option`/`Result`.

A few facts of the code that the model keeps:

- The search uses SQLite `LIKE`, which ignores ASCII case.
- The five deletes of `del_contact_by_id` commit once, so the model
  applies them as one step.
- A group item of the contact dialog starts checked when its label, not
  its id, is among the contact's group labels.
- The dialog sets its own object name to `"tag"`
  (crm/window/contact_details.py:39), so a tag created from it is checked
  against the list widget, not a combo box.
- In adding mode the dialog reads `contact_ids` for contact 0 and the new
  contact gets the next free id. When every `group_` row names an existing
  contact and no contact has id 0 (SQLite hands out ids from 1), nothing is linked to either id, and the writes of the dialog and
  of `del_contact_by_id` keep that so. A dangling `group_` row carrying
  the id the new contact receives is kept by the save, so the new contact
  inherits that link.

The current date (`datetime.now()`), the presence of the data file, the
widgets' texts and the picture file's suffix are parameters.

## Model

| member | source | states |
|---|---|---|
| Rows.MaxId | crm/database/client.py:29-89 | the result bounds every id of the table and is one of them when the table is not empty |
| Rows.NextId | crm/database/client.py:112-122 | a fresh rowid is 1 on an empty table, otherwise one more than an existing id and larger than every id |
| Rows.Insert | crm/database/client.py:112-176 | an insert keeps every row, appends exactly one row with the fresh id and the given fields, and keeps ids ascending |
| Rows.UpdateById | crm/database/client.py:269-330 | an update by id keeps length and ids, rewrites only rows with that id, and changes nothing when the id is absent |
| Rows.DeleteById | crm/database/client.py:362-389 | a delete by id keeps exactly the rows with another id and changes nothing when the id is absent |
| Rows.Filter | crm/database/client.py:336-359 | a `DELETE ... WHERE` keeps exactly the rows its predicate spares, and all of them when it spares every row |
| Rows.FilterAscending | crm/database/client.py:336-359 | deleting rows keeps the remaining ids ascending |
| Rows.CountingNextId | crm/database/client.py:105-110 | a table whose ids count 1, 2, ... gives the next row id one more than its length |
| Rows.InsertAllStep | crm/database/client.py:105-110 | inserting one more item extends the inserted rows by that item's row |
| Rows.InsertAllFromEmpty | crm/database/client.py:105-110 | inserting n rows into an empty table gives ids 1 to n in insertion order |
| Rows.InsertAllAscending | crm/database/client.py:105-110 | repeated inserts keep ids ascending and add one row each |
| Client.SeededStore | crm/__main__.py:13-18 | a newly created file holds exactly the eight default tags with ids 1 to 8 and no other row |
| Client.EditContact | crm/database/client.py:279-290 | `update_contact` rewrites every column but `profile_picture` of the row with that id; other rows and an absent id change nothing |
| Client.SetPicture | crm/database/client.py:323-330 | `update_profil_picture` changes only `profile_picture` of that row |
| Client.EditAttribute | crm/database/client.py:293-320 | `update_number_phone`/`update_mail`/`update_address` change only the value and `tag_id` of the matching row; ids, contact ids and row count stay |
| Client.RenameTag | crm/database/client.py:269-276 | `update_tag` changes only the name of that tag; its category and every other row stay |
| Client.DropByContact | crm/database/client.py:354-356 | no phone/mail/address row of the contact is left; every other row is kept |
| Client.DropMembershipsOf | crm/database/client.py:353 | no `group_` row of the contact is left; every other row is kept |
| Client.DropPair | crm/database/client.py:336-343 | every `group_` row with that (contact, tag) pair goes, duplicates included, and no other row |
| Client.DropContact | crm/database/client.py:346-359 | after the cascade no contact, group_, phone, mail or address row carries the contact; other rows and all tags are unchanged |
| Client.DropContactKeepsLinksNamed | crm/database/client.py:346-359 | the cascade leaves no `group_` row naming a deleted contact |
| Client.InsertContactKeepsLinksNamed | crm/database/client.py:112-122 | a new contact row keeps every link naming a contact, and the returned id names a row |
| Client.EditContactKeepsLinksNamed | crm/database/client.py:279-290 | rewriting a contact keeps every link naming a contact |
| Client.NoLinkToAbsent | crm/database/client.py:81-88 | when every link names a contact, an id with no contact row is linked to no tag |
| Client.DelTag | crm/database/client.py:392-412 | an unknown category raises `KeyError`; a tag used by its category's link table is kept with answer False; otherwise exactly that tag goes and the answer is True |
| Client.TagsIn | crm/database/client.py:182-241 | the tags selected by category are exactly those of that category, in id order |
| Client.NamesIds | crm/database/client.py:208-241 | entry i of the name list and of the id list come from the same tag row, and every selected row appears |
| Client.GetTagToCategoryGroup | crm/database/client.py:182-190 | the (name, id) pairs are exactly the 'group' tags, with strictly increasing ids |
| Client.GetTagToCategory | crm/database/client.py:208-241 | two lists of equal length; entry i is a tag of the requested category, and every tag of that category is listed |
| Client.TagsWithId | crm/database/client.py:11-27 | the tag rows joined to an id are exactly those carrying it |
| Client.LinkedTags | crm/database/client.py:255-263 | the inner join of tag and `group_` yields exactly the tags linked to the contact |
| Client.GetTagToCategoryGroupByContact | crm/database/client.py:193-205 | equal-length lists whose entries are 'group' tags linked to the contact, every such tag listed |
| Client.GetContactGroup | crm/database/client.py:255-263 | no linked tag gives `""`; one gives its label; the text is empty exactly when there is no label or a single empty one |
| Client.GetContactInformations | crm/database/client.py:244-252 | `fetchone()` is None exactly when no contact has the id, otherwise the four columns of a row with that id |
| Client.JoinTag | crm/database/client.py:11-27 | one attribute row joined to the tag table yields one entry per tag row carrying its `tag_id` |
| Client.QueryAttributes | crm/database/client.py:11-27 | `QUERY_PHONE`/`MAIL`/`ADDRESS` list an entry exactly when a row of the contact and a tag with its `tag_id` produce it |
| Client.AddTagListed | crm/database/client.py:168-176 | after `add_tag` the category listing gains exactly the new name and returned id, at the end |
| Client.NamesIdsAppend | crm/database/client.py:168-176 | appending a tag appends its name and id to the two lists |
| Client.DeletedContactVanishes | crm/database/client.py:346-359 | after the cascade every listing about the contact is empty and its group text is `""` |
| Client.QueryEmpty | crm/database/client.py:11-27 | a contact with no rows has an empty listing |
| Client.LinkedEmpty | crm/database/client.py:255-263 | a contact with no links has no linked tags |
| Client.OtherContactsKept | crm/database/client.py:346-359 | deleting one contact leaves another contact's phone listing and linked tags unchanged |
| Client.QueryMonotone | crm/database/client.py:11-27 | more rows for a contact never shrink its listing |
| Client.QueryKeepsContact | crm/database/client.py:11-27 | two tables with the same rows for a contact give the same listing for it |
| Client.DelTagKeepsPhoneListing | crm/database/client.py:392-412 | a phone tag `del_tag_by_id` removes was unused, so every phone listing is unchanged |
| Client.DroppedPairUnlinked | crm/database/client.py:336-343 | after `del_group_of_contact` the pair is unlinked and every other link is unchanged |
| Client.Database.constructor | crm/database/client.py:91-102 | `init_database_structure` gives six empty tables |
| Client.Database.AddContact | crm/database/client.py:112-122 | one new contact with the fresh id, which is returned, picture `pp_00000.png`, other fields as given; no other table changes |
| Client.Database.AddPhone | crm/database/client.py:125-133 | one new phone row with a fresh id; nothing else changes |
| Client.Database.AddMail | crm/database/client.py:136-144 | one new mail row with a fresh id; nothing else changes |
| Client.Database.AddAddress | crm/database/client.py:147-155 | one new address row with a fresh id; nothing else changes |
| Client.Database.AddTagGroupAtContact | crm/database/client.py:158-165 | always one new `group_` row, even for a pair already present; the pair is then linked |
| Client.Database.AddTag | crm/database/client.py:168-176 | one new tag with the given label and category; its fresh id is returned |
| Client.Database.InitDatabaseTag | crm/database/client.py:105-110 | the default tags are inserted in order and nothing else changes |
| Client.Database.CheckStart | crm/__main__.py:13-18 | a missing file becomes the seeded store; an existing one is left as it is |
| Client.Database.UpdateTag | crm/database/client.py:269-276 | the store after `update_tag` is `RenameTag` of the tag table |
| Client.Database.UpdateContact | crm/database/client.py:279-290 | the store after `update_contact` is `EditContact` of the contact table |
| Client.Database.UpdateNumberPhone | crm/database/client.py:293-300 | only the phone table changes, as `EditAttribute` |
| Client.Database.UpdateMail | crm/database/client.py:303-310 | only the mail table changes, as `EditAttribute` |
| Client.Database.UpdateAddress | crm/database/client.py:313-320 | only the address table changes, as `EditAttribute` |
| Client.Database.UpdateProfilPicture | crm/database/client.py:323-330 | only the contact table changes, as `SetPicture` |
| Client.Database.DelGroupOfContact | crm/database/client.py:336-343 | only `group_` changes, as `DropPair` |
| Client.Database.DelContactById | crm/database/client.py:346-359 | the store after the cascade is `DropContact` of the old one, in one step |
| Client.Database.DelPhoneById | crm/database/client.py:362-369 | only the phone row with that id goes |
| Client.Database.DelMailById | crm/database/client.py:372-379 | only the mail row with that id goes |
| Client.Database.DelAddressById | crm/database/client.py:382-389 | only the address row with that id goes |
| Client.Database.DelTagById | crm/database/client.py:392-412 | the answer and the new store are those of `DelTag` |
| MainWindow.Matching | crm/window/main_window.py:588-599 | the contacts kept are exactly those mentioning the text, in id order |
| MainWindow.SearchContacts | crm/window/main_window.py:584-603 | empty text lists every contact as (id, firstname, lastname); otherwise a contact is listed iff its names, a mail, phone or address value, or a tag linked through `group_` contains the text ignoring ASCII case; each at most once |
| MainWindow.MentionsEmpty | crm/window/main_window.py:587 | every contact mentions the empty text |
| MainWindow.EmptySearchUniform | crm/window/main_window.py:587-601 | the unfiltered query is the filtered one with an empty pattern |
| MainWindow.MatchingAll | crm/window/main_window.py:587 | an empty pattern keeps every row |
| MainWindow.MatchingCongruent | crm/window/main_window.py:588-599 | two stores on which each contact mentions the text alike give the same search |
| MainWindow.RenamingUnlinkedTag | crm/window/main_window.py:592-599 | renaming a tag no `group_` row uses never changes the search: tags of phone, mail or address rows are not searched |
| MainWindow.FirstOf | crm/window/main_window.py:589-591 | the outer join of an attribute table yields some row of the contact, or NULL when it has none |
| MainWindow.FirstGroupOf | crm/window/main_window.py:592 | the outer join of `group_` yields a link of the contact, or NULL when it has none |
| MainWindow.FirstTagOf | crm/window/main_window.py:593 | the outer join of tag yields a tag with the link's id, or NULL |
| MainWindow.FirstRow | crm/window/main_window.py:588-593 | every contact heads at least one joined row |
| MainWindow.WhereIffMentions | crm/window/main_window.py:588-599 | some joined row of a contact passes the `WHERE` clause iff the contact mentions the text |
| MainWindow.MentionGivesWhere | crm/window/main_window.py:588-599 | a contact that mentions the text has a joined row that passes the `WHERE` clause |
| MainWindow.WhereGivesMention | crm/window/main_window.py:594-599 | a joined row that passes the `WHERE` clause comes from a contact mentioning the text |
| MainWindow.SearchMatchesSql | crm/window/main_window.py:588-599 | for a non-empty text the search lists exactly the lines `SELECT DISTINCT` over the outer join selects |
| MainWindow.PictureFileName | crm/window/main_window.py:463 | the name starts with `pp_` and ends with the picture's suffix |
| MainWindow.PictureFileNameRoundTrip | crm/window/main_window.py:463 | between prefix and suffix are the decimal digits of the id, zero-padded to at least five, never truncated |
| MainWindow.BirthdayLabel | crm/window/main_window.py:636-642 | an empty or `1899-12-31` birthday is blank, anything else is shown; a stored text that does not parse raises `ValueError` |
| MainWindow.SentinelBlank | crm/window/main_window.py:637 | the default birthday is stored as `1899-12-31` and shown blank |
| MainWindow.StoredBirthdayShown | crm/window/main_window.py:637-640 | any other valid stored date is shown as "age ans (dd/mm/YYYY)" |
| MainWindow.DeleteMessage | crm/window/main_window.py:108-124 | known types give their fixed prefix followed by the arguments joined with single spaces; other types raise `UnboundLocalError` |
| MainWindow.DeleteContactMessage | crm/window/main_window.py:114-124 | the contact confirmation names the first and last name, separated by one space |
| ListItem.ToggleTwice | crm/window/list_item.py:23-27 | toggling twice restores a set flag; None and False toggle to True, True to False |
| ListItem.CustomListWidgetItem.constructor | crm/window/list_item.py:9-11 | a new item has its label, `is_checked = None` and `id = idx` |
| ListItem.CustomListWidgetItem.Checked | crm/window/list_item.py:14-16 | sets the flag to True, keeping label and id |
| ListItem.CustomListWidgetItem.Unchecked | crm/window/list_item.py:18-21 | sets the flag to False, keeping label and id |
| ListItem.CustomListWidgetItem.ChangeEtat | crm/window/list_item.py:23-27 | True becomes False, False or None becomes True; label and id are kept |
| InputTag.DecodeCharAscii | crm/window/input_tag.py:12-15 | transliteration keeps ASCII and turns Latin-1 letters into ASCII |
| InputTag.NormaliseCharCase | crm/window/input_tag.py:12-15 | a letter and its upper- or lower-case form normalise alike |
| InputTag.LatinCaseC0 | crm/window/input_tag.py:12-15 | a character from U+00C0 to U+00CF and its upper- or lower-case form normalise alike |
| InputTag.LatinCaseD0 | crm/window/input_tag.py:12-15 | a character from U+00D0 to U+00DF and its upper- or lower-case form normalise alike |
| InputTag.LatinCaseE0 | crm/window/input_tag.py:12-15 | a character from U+00E0 to U+00EF and its upper- or lower-case form normalise alike |
| InputTag.LatinCaseF0 | crm/window/input_tag.py:12-15 | a character from U+00F0 to U+00FF and its upper- or lower-case form normalise alike |
| InputTag.LowerAppend | crm/window/input_tag.py:12-15 | `lower` works character by character |
| InputTag.UnidecodeAppend | crm/window/input_tag.py:12-15 | `unidecode` works character by character |
| InputTag.NormaliseIgnoresCase | crm/window/input_tag.py:12-15 | upper-casing, lower-casing or capitalising a label does not change its normal form |
| InputTag.NormaliseUpper | crm/window/input_tag.py:12-15 | upper-casing does not change a label's normal form |
| InputTag.NormaliseLower | crm/window/input_tag.py:12-15 | lower-casing does not change a label's normal form |
| InputTag.NormaliseSplit | crm/window/input_tag.py:12-15 | the normal form of a concatenation is the concatenation of the normal forms |
| InputTag.CheckTag | crm/window/input_tag.py:9-15 | an empty tag is refused; otherwise the tag is accepted iff its normal form differs from every item's; a widget of neither kind raises `UnboundLocalError` |
| InputTag.ComboAndListAgree | crm/window/input_tag.py:11-14 | the combo-box and list-widget branches give the same answer |
| InputTag.ExistingLabelRefused | crm/window/input_tag.py:12-15 | a tag equal to an item, or to its upper-cased or capitalised form, is refused |
| InputTag.SaveInputUser | crm/window/input_tag.py:76-92 | an unknown parent raises `UnboundLocalError`; a label is emitted iff `check_tag` accepts it, and it is `capitalize()` of the input |
| InputTag.SavedLabelRefusedAgain | crm/window/input_tag.py:82-92 | once a label is emitted and listed, the same input is refused |
| InputTag.ModifyUnchangedRefused | crm/window/input_tag.py:9-15 | in modify mode the old label is still listed, so an input that normalises like it (unchanged, or changed only in case or accents) is refused by `check_tag` |
| InputTag.AccentDropped | crm/window/input_tag.py:12-15 | removing the grave accent of an è, anywhere in a text, keeps its normal form |
| InputTag.AccentOnlyChangeRefused | crm/window/input_tag.py:9-15 | renaming "Collègue" to "Collegue" or "collegue" is refused |
| ContactDetails.Prepare | crm/window/contact_details.py:161-179 | refused iff both names are empty; an unparsable date stops the save; otherwise the first name is stored through `capitalize()`, the last name through `upper()`, the birthday as the zero-padded YYYY-MM-DD text of the typed date (which reads back as that date), company and job as typed |
| ContactDetails.ResaveUnchanged | crm/window/contact_details.py:161-179 | reopening and saving a stored contact unchanged stores the same values |
| ContactDetails.DefaultBirthdayBlank | crm/window/contact_details.py:86 | a new contact whose date is left alone is stored with `1899-12-31`, shown blank |
| ContactDetails.InitialCheckedIffLinked | crm/window/contact_details.py:94-102 | an item's id is in `contact_ids` iff the contact is linked to it; its label-based check state agrees when no two group tags share a label |
| ContactDetails.ItemCheckedIffLinked | crm/window/contact_details.py:94-102 | the same, for one item |
| ContactDetails.ListedWhenLinked | crm/window/contact_details.py:95 | a linked group tag is among the contact's labels and ids |
| ContactDetails.SameLabelSameId | crm/window/contact_details.py:98 | with unique group labels a label names one id |
| ContactDetails.PlanCallsIff | crm/window/contact_details.py:181-185 | the loop links exactly the checked items not in `contact_ids` and unlinks exactly the unchecked ones in it: the symmetric difference |
| ContactDetails.NothingToggledNoCalls | crm/window/contact_details.py:181-185 | when every check state agrees with `contact_ids` no call is made |
| ContactDetails.Apply | crm/window/contact_details.py:182-185 | a membership call changes only `group_` |
| ContactDetails.ApplyCalls | crm/window/contact_details.py:181-185 | the calls of the loop change only `group_` and keep ids ascending |
| ContactDetails.ApplyLinked | crm/window/contact_details.py:182-185 | a call links or unlinks its own pair and no other |
| ContactDetails.ApplyCallsAppend | crm/window/contact_details.py:181-185 | the calls apply one after another |
| ContactDetails.LoopStep | crm/window/contact_details.py:181-185 | one more item adds its own call to those before it |
| ContactDetails.StepEffect | crm/window/contact_details.py:182-185 | one item's call leaves the contact linked to it iff it is checked, and no other link changes |
| ContactDetails.PlanStep | crm/window/contact_details.py:181-185 | one turn of the loop extends the links-match invariant by one item |
| ContactDetails.PlanPrefix | crm/window/contact_details.py:181-185 | after the first k items the contact is linked to exactly the checked ones among them, every other link as before |
| ContactDetails.SaveMakesLinksMatch | crm/window/contact_details.py:181-185 | after the loop the contact is linked to exactly the checked items and no other link changed |
| ContactDetails.FreshContactUnlinked | crm/window/contact_details.py:173-183 | when every `group_` row names an existing contact and no contact has id 0, the `contact_ids` read for id 0 is empty and the new contact is linked to no tag, so that reading is accurate |
| ContactDetails.AddingModeKeepsLinks | crm/window/contact_details.py:173-183 | adding mode only adds links, so a `group_` row already carrying the new id survives and the new contact inherits it |
| ContactDetails.ApplyCallsKeepLinksNamed | crm/window/contact_details.py:181-185 | the loop for an existing contact leaves every `group_` row naming an existing contact |
| ContactDetails.SaveKeepsLinksNamed | crm/window/contact_details.py:166-185 | saving the dialog, in either mode, keeps every `group_` row naming an existing contact when the modified contact exists |
| ContactDetails.StatesOf | crm/window/contact_details.py:181 | the loop reads each item's id and flag, in list order |
| ContactDetails.MakeItems | crm/window/contact_details.py:96-102 | one new item per (label, id), checked iff its label is among the contact's labels |
| ContactDetails.StatesOfAppend | crm/window/contact_details.py:154-159 | appending an item appends its id and flag to what the save loop reads |
| ContactDetails.SaveGroups | crm/window/contact_details.py:181-185 | the loop leaves the store as the planned calls make it |
| ContactDetails.SaveItem | crm/window/contact_details.py:182-185 | one turn makes the one call, if any, its item needs |
| ContactDetails.DetailsContact.constructor | crm/window/contact_details.py:94-102 | the dialog holds every group tag, the contact's linked ids, and one item per tag checked by label |
| ContactDetails.DetailsContact.AddTag | crm/window/contact_details.py:154-159 | the new tag is stored, appended to `all_items` and to the list as a checked item with the returned id |
| ContactDetails.DetailsContact.AppendChecked | crm/window/contact_details.py:156-159 | the list grows by one new checked item with the given label and id, and the items before it are kept |
| ContactDetails.DetailsContact.Store | crm/window/contact_details.py:166-185 | the contact is updated or added, then the membership calls planned from the list are applied for its id |
| ContactDetails.DetailsContact.SaveChanges | crm/window/contact_details.py:161-188 | nothing is written when the form is refused; otherwise the contact is updated (or added, keeping its new id) and the membership calls are applied for that id |
| ContactDetails.DetailsContact.SaveContact | crm/window/contact_details.py:166-179 | modify mode updates the contact, adding mode adds it and keeps the returned id |
| Utils.DefaultTagsPartition | crm/api/utils.py:18-27 | eight seed tags, exactly two in each of group, phone, mail and address |
| Utils.DefaultTagsCount | crm/api/utils.py:18-27 | the number of seed tags of each category |
| Utils.GetAgeFromBirthday | crm/api/utils.py:100-102 | the age is the last anniversary reached: the year difference, minus one before the anniversary |
| Utils.AgeOnAnniversary | crm/api/utils.py:102 | on the anniversary the age is the year difference |
| Utils.AgeOnDayBefore | crm/api/utils.py:100-102 | on the day before any anniversary after the birth year, including one on the 1st of a month or on 1 January, the age is one less than on the anniversary |
| Utils.AgeNonNegative | crm/api/utils.py:100-102 | nobody born by today has a negative age |
| Utils.CheckPhoneNumberFormat | crm/api/utils.py:82-88 | the recogniser accepts exactly the strings the anchored regular expression matches |
| Utils.SkipSeps | crm/api/utils.py:85 | the separator run at the start of a string |
| Utils.ScanGroupsIff | crm/api/utils.py:86 | digit groups with optional separators are recognised exactly |
| Utils.ScanNationalIff | crm/api/utils.py:86 | the digit 1-9 and eight more digits in either grouping are recognised exactly |
| Utils.PrefixUnique | crm/api/utils.py:85 | the prefix before a digit 1-9 is the one the recogniser finds |
| Utils.TrailerUnique | crm/api/utils.py:85 | the separators and optional `(0)` after the country code are the ones the recogniser finds |
| Utils.WholeMatchScan | crm/api/utils.py:85-86 | the whole pattern matches iff the recogniser accepts |
| Utils.NationalEndsWithDigit | crm/api/utils.py:86 | the national part of an accepted number ends with a digit |
| Utils.WholeMatchEndsWithDigit | crm/api/utils.py:86 | an accepted number ends with a digit |
| Utils.TrailingNewline | crm/api/utils.py:85-86 | one trailing newline is tolerated, two are not |
| Utils.AcceptedStart | crm/api/utils.py:85 | an accepted number starts with `+` or `0`: nothing may precede the prefix |
| Text.CaseMappingIdempotent | crm/window/contact_details.py:166-179 | `upper`, `lower` and `capitalize` are idempotent |
| Text.ContainsIff | crm/window/main_window.py:594-599 | `%text%` matches iff the text occurs at some position |
| Text.LikeEmpty | crm/window/main_window.py:594-599 | the pattern `%%` matches every value |
| Text.JoinAppend | crm/window/main_window.py:122 | joining two lists puts one separator between their joins |
| Text.JoinEmptyIff | crm/database/client.py:263 | a join is empty iff there is no part or one empty part |
| Text.NatToDecimalRoundTrip | crm/window/main_window.py:463 | `str(id)` is all digits, reads back as the id and has no leading zero |
| Text.LeadingZeros | crm/window/main_window.py:463 | zero padding keeps digits and value |
| Text.FixedDigitsRoundTrip | crm/window/contact_details.py:166-179 | a fixed-width field of `strftime` has that width and reads back as its value |
| Dates.ParseIso | crm/window/main_window.py:638 | `strptime(..., '%Y-%m-%d')` only yields valid dates |
| Dates.ParseDisplay | crm/window/contact_details.py:165 | `strptime(..., "%d/%m/%Y")` only yields valid dates |
| Dates.IsoRoundTrip | crm/window/contact_details.py:165-179 | a date written as `%Y-%m-%d` reads back as itself |
| Dates.DisplayRoundTrip | crm/window/main_window.py:640 | a date written as `%d/%m/%Y` reads back as itself |
| Dates.PreviousDay | crm/api/utils.py:100-102 | the calendar day before a date other than 1 January of year 1 is a valid date before it, with no valid date in between |

## Left out

- Qt: layouts, icons, round pictures, `QSqlQueryModel` refreshes, signals, message boxes and themes are interface code.
- sqlite3 connections: connect, commit and close, including the connection left open on the early return of `del_tag_by_id`; each function is one atomic state change.
- SQL text: the search text and some ids are spliced into the SQL, so `%`, `_` and `"` change a query's meaning. The model treats the text as a literal substring and ids as integers.
- Row order: no query has `ORDER BY`; the model returns rows in id order, which SQLite does not promise.
- Foreign keys: referential integrity is not enforced, as in SQLite's default.
- `init_database_structure` on an existing file (`CREATE TABLE IF NOT EXISTS`) is not modelled; the constructor models a new file only.
- Text.Lower, Text.Upper, Text.Capitalize: modelled for ASCII and the Latin-1 letters only; Python maps every Unicode letter, and some (`ß`, `ÿ`) to other lengths or outside Latin-1.
- InputTag.Unidecode: transliterates the Latin-1 letters U+00C0–U+00FF and keeps every character below them; other characters, including the Latin-1 symbols U+0080–U+00BF, are kept as they are, where the `unidecode` library would rewrite them.
- Text.Like: ASCII case folding only, as SQLite's `LIKE` without ICU.
- Utils.CheckPhoneNumberFormat: `\d` is restricted to ASCII digits; Python's `\d` also accepts other Unicode decimal digits. `\s` is Python's whitespace set.
- `check_mail_format` (crm/api/utils.py:91-97) is not part of this model: its regular expression relies on negated Unicode classes.
- Settings and stylesheets (crm/api/utils.py:30-79) are file I/O.
- Picture files: copying and unlinking (crm/window/main_window.py:464-466) and the background image are file I/O; only the name is modelled, with the source file's suffix as a parameter.
- Dates.ParseIso, Dates.ParseDisplay: the fields take ASCII digits only, while `strptime`'s `\d` accepts any Unicode decimal digit; Dates.FormatIso always writes four year digits, while glibc's `strftime('%Y')` writes years below 1000 unpadded. The date widget produces neither case.
- Client.GetTagToCategoryGroupByContact: the query returns one entry per `group_` row, so a pair linked twice gives its label twice; the contract states which labels appear, not how often.
- Dates.ParseDisplay: the date widget's text is taken as the `dd/MM/yyyy` string it displays; the widget is not modelled.
- Utils.GetAgeFromBirthday, MainWindow.BirthdayLabel: `datetime.now()` is the parameter `today`.
- Client.GetContactGroup: the contract states the empty and one-label cases and when the text is empty; longer lists are the labels joined with `", "`, which `Text.JoinAppend` describes.
- The other windows (crm/window/tag.py, phone_details.py, mail_details.py, address_details.py, about.py), crm/window/basic.py, crm/database/models.py and crm/api/contact.py are not part of this model: they forward to the store, duplicate the logic modelled here, are unused, or are static text.
