/** The entry of a tag list in crm/window/list_item.py: a label, the id of
    the tag it shows and a checked flag that starts out unset. */
module ListItem {
  import opened Common

  /** `if self.is_checked:` — `None` and `False` are both false. */
  predicate Truthy(flag: Option<bool>) {
    flag == Some(true)
  }

  /** The flag `change_etat` leaves behind. */
  function Toggled(flag: Option<bool>): bool {
    !Truthy(flag)
  }

  /** Clicking twice on an item whose flag is set gives the flag back; an
      item that never was checked or unchecked becomes checked. */
  lemma ToggleTwice(flag: Option<bool>)
    ensures flag.Some? ==> Toggled(Some(Toggled(flag))) == flag.value
    ensures Toggled(None) && Toggled(Some(false)) && !Toggled(Some(true))
  {
  }

  class CustomListWidgetItem {
    var text: string
    var isChecked: Option<bool>
    var id: int

    constructor (item: string, idx: int)
      ensures text == item && isChecked == None && id == idx
    {
      text, isChecked, id := item, None, idx;
    }

    /** The `checked` property: sets the flag (and the tick icon). */
    method Checked()
      modifies this
      ensures isChecked == Some(true)
      ensures text == old(text) && id == old(id)
    {
      isChecked := Some(true);
    }

    /** The `unchecked` property: clears the flag (and shows the cross icon). */
    method Unchecked()
      modifies this
      ensures isChecked == Some(false)
      ensures text == old(text) && id == old(id)
    {
      isChecked := Some(false);
    }

    /** `change_etat`: unchecks a checked item and checks any other. */
    method ChangeEtat()
      modifies this
      ensures isChecked == Some(Toggled(old(isChecked)))
      ensures text == old(text) && id == old(id)
    {
      if Truthy(isChecked) {
        Unchecked();
      } else {
        Checked();
      }
    }
  }
}
