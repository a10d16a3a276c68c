/** Setting groups: the control block of a logical device and what each write to it does. */
module Settings {
  import opened Values

  type SettingValues = map<string, Value>

  /** `editing` is EditSG (0: no edit session); `buffer` holds the editable (SE) values. */
  datatype Sgcb = Sgcb(active: int, editing: int, groups: map<int, SettingValues>, buffer: SettingValues)

  datatype SettingWrite =
    | SelectEdit(group: int)
    | PutSetting(ref: string, value: Value)
    | ConfirmEdit
    | SelectActive(group: int)

  /** The writes a device can carry out. */
  predicate Possible(s: Sgcb, w: SettingWrite) {
    match w
    case SelectEdit(n) => n == 0 || n in s.groups
    case PutSetting(_, _) => s.editing in s.groups
    case ConfirmEdit => s.editing in s.groups
    case SelectActive(n) => n in s.groups
  }

  /** What an accepted write does: selecting copies the group into the editable values, confirming
      stores them in the group. */
  function Performed(s: Sgcb, w: SettingWrite): Sgcb
    requires Possible(s, w)
  {
    match w
    case SelectEdit(n) => if n == 0 then s.(editing := 0) else s.(editing := n, buffer := s.groups[n])
    case PutSetting(ref, v) => s.(buffer := s.buffer[ref := v])
    case ConfirmEdit => s.(groups := s.groups[s.editing := s.buffer])
    case SelectActive(n) => s.(active := n)
  }
}
