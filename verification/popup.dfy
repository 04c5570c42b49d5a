/** The management popup's edits of the template store: a map from shortcut to
    content, the save validation, put-overwrites, edit with rename, delete, the
    `templatesUpdated` notices posted to the background worker, and which
    listener the Save button carries. */
module Popup {
  import opened Opt
  import opened Text

  /** The object store, keyed by shortcut (`keyPath: "shortcut"`). */
  type Store = map<string, string>

  /** The character every shortcut saved from the add form starts with. */
  const Sentinel: string := "\\"

  /** The listener currently on the Save button. */
  datatype SaveHandler = AddHandler | EditHandler(original: string) | Inert

  datatype State = State(store: Store, handler: SaveHandler)

  /** The `alert` an action shows, if any. */
  datatype Alert = NoAlert | NeedBackslash | NeedBoth

  /** The new state, how many `templatesUpdated` notices were posted, and the alert. */
  datatype Outcome = Outcome(state: State, notices: nat, alert: Alert)

  /** `store.put({shortcut, content})`: overwrites any record under that key. */
  function Put(store: Store, shortcut: string, content: string): (r: Store)
    ensures r.Keys == store.Keys + {shortcut} && r[shortcut] == content
    ensures forall k :: k in store && k != shortcut ==> r[k] == store[k]
  {
    store[shortcut := content]
  }

  /** `store.delete(shortcut)`: removes that key only. */
  function Delete(store: Store, shortcut: string): (r: Store)
    ensures r.Keys == store.Keys - {shortcut}
    ensures forall k :: k in r ==> r[k] == store[k]
  {
    store - {shortcut}
  }

  /** `store.get(shortcut)`: the record under exactly that key, if any. */
  function Get(store: Store, shortcut: string): (r: Option<string>)
    ensures r.Some? <==> shortcut in store
    ensures r.Some? ==> r.value == store[shortcut]
  {
    if shortcut in store then Some(store[shortcut]) else None
  }

  /** The add form's Save: the trimmed shortcut must start with a backslash,
      and both fields must be non-empty; an accepted save puts the record and
      posts one notice, a rejected one changes nothing and shows an alert. */
  function AddSave(st: State, rawShortcut: string, content: string): (r: Outcome)
    ensures r.state.handler == st.handler
    ensures r.alert == NoAlert <==> StartsWith(Trim(rawShortcut), Sentinel) && content != ""
    ensures !StartsWith(Trim(rawShortcut), Sentinel) ==> r.alert == NeedBackslash
    ensures r.alert == NoAlert ==> r.state.store == Put(st.store, Trim(rawShortcut), content) && r.notices == 1
    ensures r.alert != NoAlert ==> r.state == st && r.notices == 0
  {
    var shortcut := Trim(rawShortcut);
    if !StartsWith(shortcut, Sentinel) then Outcome(st, 0, NeedBackslash)
    else if content != "" && shortcut != "" then Outcome(st.(store := Put(st.store, shortcut, content)), 1, NoAlert)
    else Outcome(st, 0, NeedBoth)
  }

  /** `deleteTemplate(shortcut, reload)`: a notice is posted only when reloading. */
  function DeleteTemplate(st: State, shortcut: string, reload: bool): (r: Outcome)
    ensures r.state.store == Delete(st.store, shortcut) && r.state.handler == st.handler
    ensures r.notices == (if reload then 1 else 0) && r.alert == NoAlert
  {
    Outcome(st.(store := Delete(st.store, shortcut)), if reload then 1 else 0, NoAlert)
  }

  /** The Edit button: when the record exists, the Save button switches to the
      edit listener for it. */
  function OpenEdit(st: State, shortcut: string): (r: State)
    ensures r.store == st.store
    ensures shortcut in st.store ==> r.handler == EditHandler(shortcut)
    ensures shortcut !in st.store ==> r == st
  {
    if shortcut in st.store then st.(handler := EditHandler(shortcut)) else st
  }

  /** The store edit of an edit-save: a changed shortcut deletes the old key
      (without a reload) before the new record is put. */
  function EditStore(store: Store, original: string, shortcut: string, content: string): (r: Store)
    ensures shortcut in r && r[shortcut] == content
    ensures shortcut != original ==> original !in r
    ensures forall k :: k != original && k != shortcut ==> (k in r <==> k in store) && (k in r ==> r[k] == store[k])
    ensures shortcut == original ==> r == Put(store, shortcut, content)
  {
    var kept := if shortcut != original then Delete(store, original) else store;
    Put(kept, shortcut, content)
  }

  /** The edit listener's Save as written: when both trimmed shortcut and content
      are non-empty, edit the store and post one notice; the backslash rule is
      not checked. The listener is then "restored" from
      `dataset.originalOnClick`, which holds a string, so the button is left
      without a listener. */
  function EditSaveAsWritten(st: State, original: string, rawShortcut: string, content: string): (r: Outcome)
    ensures r.alert == NoAlert
    ensures content != "" && Trim(rawShortcut) != "" ==>
              r.state == State(EditStore(st.store, original, Trim(rawShortcut), content), Inert) && r.notices == 1
    ensures content == "" || Trim(rawShortcut) == "" ==> r == Outcome(st, 0, NoAlert)
  {
    var shortcut := Trim(rawShortcut);
    if content != "" && shortcut != "" then Outcome(State(EditStore(st.store, original, shortcut, content), Inert), 1, NoAlert)
    else Outcome(st, 0, NoAlert)
  }

  /** The edit listener's Save with the add listener put back afterwards. */
  function EditSave(st: State, original: string, rawShortcut: string, content: string): (r: Outcome)
    ensures r.alert == NoAlert
    ensures content != "" && Trim(rawShortcut) != "" ==>
              r.state == State(EditStore(st.store, original, Trim(rawShortcut), content), AddHandler) && r.notices == 1
    ensures content == "" || Trim(rawShortcut) == "" ==> r == Outcome(st, 0, NoAlert)
  {
    var shortcut := Trim(rawShortcut);
    if content != "" && shortcut != "" then Outcome(State(EditStore(st.store, original, shortcut, content), AddHandler), 1, NoAlert)
    else Outcome(st, 0, NoAlert)
  }

  /** A click on Save (or Ctrl+Enter), dispatched on the current listener. */
  function SaveClicked(st: State, rawShortcut: string, content: string): (r: Outcome)
    ensures r.notices <= 1
    ensures r.notices == 0 ==> r.state.store == st.store
    ensures st.handler.AddHandler? ==> r == AddSave(st, rawShortcut, content)
    ensures st.handler.EditHandler? ==> r == EditSave(st, st.handler.original, rawShortcut, content)
    ensures st.handler.Inert? ==> r == Outcome(st, 0, NoAlert)
  {
    match st.handler
    case AddHandler => AddSave(st, rawShortcut, content)
    case EditHandler(original) => EditSave(st, original, rawShortcut, content)
    case Inert => Outcome(st, 0, NoAlert)
  }

  /** The same dispatch with the edit listener as written. */
  function SaveClickedAsWritten(st: State, rawShortcut: string, content: string): (r: Outcome)
    ensures r.notices <= 1
    ensures r.notices == 0 ==> r.state.store == st.store
    ensures st.handler.AddHandler? ==> r == AddSave(st, rawShortcut, content)
    ensures st.handler.EditHandler? ==> r == EditSaveAsWritten(st, st.handler.original, rawShortcut, content)
    ensures st.handler.Inert? ==> r == Outcome(st, 0, NoAlert)
  {
    match st.handler
    case AddHandler => AddSave(st, rawShortcut, content)
    case EditHandler(original) => EditSaveAsWritten(st, original, rawShortcut, content)
    case Inert => Outcome(st, 0, NoAlert)
  }

  // ---------------------------------------------------------------------------
  // Properties

  /** Saving then reading by key returns the saved content unchanged, and every
      other record is untouched. */
  lemma SaveThenGet(st: State, rawShortcut: string, content: string)
    requires AddSave(st, rawShortcut, content).alert == NoAlert
    ensures var store := AddSave(st, rawShortcut, content).state.store;
            && Get(store, Trim(rawShortcut)) == Some(content)
            && forall k :: k != Trim(rawShortcut) ==> Get(store, k) == Get(st.store, k)
  {
  }

  /** The round trip for `\ab` and `<i>x</i>` from an empty store. */
  lemma SaveThenGetExample()
    ensures Get(AddSave(State(map[], AddHandler), "\\ab", "<i>x</i>").state.store, "\\ab") == Some("<i>x</i>")
  {
    var raw := "\\ab";
    assert !IsWhitespace(raw[0]) && !IsWhitespace(raw[2]);
    TrimUnchanged(raw);
    assert StartsWith(raw, Sentinel);
    var r := AddSave(State(map[], AddHandler), raw, "<i>x</i>");
    assert r.alert == NoAlert;
  }

  /** The edit path stores a shortcut the add form would refuse. */
  lemma EditSkipsBackslashRule()
    ensures var st := State(map["\\a" := "x"], EditHandler("\\a"));
            && AddSave(st, "a", "y").state.store == st.store
            && SaveClicked(st, "a", "y").state.store == map["a" := "y"]
  {
    var st := State(map["\\a" := "x"], EditHandler("\\a"));
    assert !IsWhitespace("a"[0]);
    TrimUnchanged("a");
    assert !StartsWith(Trim("a"), Sentinel);
    assert AddSave(st, "a", "y").state == st;
    assert map["\\a" := "x"] - {"\\a"} == map[];
    assert EditSave(st, "\\a", "a", "y").state.store == map["a" := "y"];
  }

  /** A rename posts exactly one notice: the internal delete posts none. */
  lemma RenamePostsOneNotice(st: State, original: string, rawShortcut: string, content: string)
    requires content != "" && Trim(rawShortcut) != "" && Trim(rawShortcut) != original
    ensures var r := EditSave(st, original, rawShortcut, content);
            r.notices == 1 && original !in r.state.store && r.state.store[Trim(rawShortcut)] == content
  {
  }

  /** As written, an edit-save leaves Save without a listener: a following add
      with a valid shortcut and content changes nothing and posts nothing. */
  lemma AddIgnoredAfterEditAsWritten(st: State, rawShortcut: string, content: string, raw2: string, content2: string)
    requires st.handler.EditHandler? && content != "" && Trim(rawShortcut) != ""
    requires StartsWith(Trim(raw2), Sentinel) && content2 != ""
    ensures var s1 := SaveClickedAsWritten(st, rawShortcut, content).state;
            var r := SaveClickedAsWritten(s1, raw2, content2);
            r.state == s1 && r.notices == 0
            && (Trim(raw2) !in s1.store ==> Trim(raw2) !in r.state.store)
  {
  }

  /** With the add listener put back, the following valid add is saved. */
  lemma AddSavedAfterEdit(st: State, rawShortcut: string, content: string, raw2: string, content2: string)
    requires st.handler.EditHandler? && content != "" && Trim(rawShortcut) != ""
    requires StartsWith(Trim(raw2), Sentinel) && content2 != ""
    ensures var s1 := SaveClicked(st, rawShortcut, content).state;
            var r := SaveClicked(s1, raw2, content2);
            Get(r.state.store, Trim(raw2)) == Some(content2) && r.notices == 1
  {
  }
}
