/** The page context: the local key buffer and its fixed-list detector, the
    editor keydown/input handlers that relay events to the background worker,
    the processing flag, and the `insertTemplate` handler that resolves a target
    and splices the template into it. The DOM is reduced to the few facts these
    handlers read. */
module Content {
  import opened Opt
  import opened Text
  import opened Cooldown
  import Search
  import opened Splice

  /** The local key buffer keeps at most this many trailing characters. */
  const LocalBufferCap: nat := 20
  /** An input event forwards at most this many trailing characters. */
  const InputTailLength: nat := 20
  /** The shortcuts the page detects on its own, in the order it tries them. */
  const KnownShortcuts: seq<string> := ["\\wsd", "\\lbj"]

  /** An element, as far as the handlers look at it. */
  datatype Element = Element(id: nat, contentEditable: bool)

  datatype State = State(
    localKeyBuffer: string,
    recent: Table,
    processing: bool,
    lastActiveEditor: Option<Element>)

  /** Messages to the background worker. */
  datatype Outgoing =
    | KeydownMsg(key: string)
    | InputChangeMsg(text: string)
    | ShortcutDetectedMsg(shortcut: string)

  datatype Step = Step(state: State, sent: seq<Outgoing>)

  // ---------------------------------------------------------------------------
  // Detection

  /** The keys `updateLocalBuffer` keeps: single characters, Enter and Tab. */
  predicate IsBufferedKey(key: string) {
    |key| == 1 || key == "Enter" || key == "Tab" || key == " "
  }

  /** `checkForLocalShortcuts(localKeyBuffer)`: unless an insertion is in flight,
      take the first listed shortcut the buffer ends with; if it was not seen in
      the last 2000 ms, raise the processing flag, record `now` and ask the
      worker for it. A cooldown hit changes nothing. */
  function CheckForLocalShortcuts(st: State, now: int): (r: Step)
    ensures st.processing ==> r == Step(st, [])
    ensures r.sent == [] ==> r.state == st
    ensures r.sent != [] ==>
              && !st.processing && |r.sent| == 1 && r.sent[0].ShortcutDetectedMsg?
              && var s := r.sent[0].shortcut;
                 && (exists i :: 0 <= i < |KnownShortcuts| && KnownShortcuts[i] == s && EndsWith(st.localKeyBuffer, s)
                       && forall j :: 0 <= j < i ==> !EndsWith(st.localKeyBuffer, KnownShortcuts[j]))
                 && !Cooling(st.recent, s, now, LocalDetectCooldownMs)
                 && r.state == st.(processing := true, recent := Record(st.recent, s, now))
    ensures !st.processing && (forall j :: 0 <= j < |KnownShortcuts| ==> !EndsWith(st.localKeyBuffer, KnownShortcuts[j])) ==>
              r.sent == []
    ensures forall i :: 0 <= i < |KnownShortcuts| && !st.processing && EndsWith(st.localKeyBuffer, KnownShortcuts[i])
                        && (forall j :: 0 <= j < i ==> !EndsWith(st.localKeyBuffer, KnownShortcuts[j])) ==>
              var s := KnownShortcuts[i];
              && (Cooling(st.recent, s, now, LocalDetectCooldownMs) ==> r == Step(st, []))
              && (!Cooling(st.recent, s, now, LocalDetectCooldownMs) ==>
                    r == Step(st.(processing := true, recent := Record(st.recent, s, now)), [ShortcutDetectedMsg(s)]))
  {
    if st.processing then Step(st, [])
    else
      match Search.Find(KnownShortcuts, s => EndsWith(st.localKeyBuffer, s))
      case None => Step(st, [])
      case Some(s) =>
        if Cooling(st.recent, s, now, LocalDetectCooldownMs) then Step(st, [])
        else Step(st.(processing := true, recent := Record(st.recent, s, now)), [ShortcutDetectedMsg(s)])
  }

  /** `updateLocalBuffer(key)`: a buffered key is appended (keeping the last 20
      characters) and the detector runs; any other key changes nothing. */
  function UpdateLocalBuffer(st: State, key: string, now: int): (r: Step)
    ensures !IsBufferedKey(key) ==> r == Step(st, [])
    ensures IsBufferedKey(key) ==>
              && |r.state.localKeyBuffer| <= LocalBufferCap
              && EndsWith(st.localKeyBuffer + key, r.state.localKeyBuffer)
              && (|st.localKeyBuffer + key| <= LocalBufferCap ==> r.state.localKeyBuffer == st.localKeyBuffer + key)
    ensures r.sent != [] ==>
              && IsBufferedKey(key) && |r.sent| == 1 && r.sent[0].ShortcutDetectedMsg?
              && EndsWith(r.state.localKeyBuffer, r.sent[0].shortcut)
    ensures r.state.lastActiveEditor == st.lastActiveEditor
    ensures r.state.processing == (st.processing || r.sent != [])
    ensures IsBufferedKey(key) ==>
              r == CheckForLocalShortcuts(st.(localKeyBuffer := AppendBounded(st.localKeyBuffer, key, LocalBufferCap)), now)
  {
    if IsBufferedKey(key) then
      CheckForLocalShortcuts(st.(localKeyBuffer := AppendBounded(st.localKeyBuffer, key, LocalBufferCap)), now)
    else Step(st, [])
  }

  /** The editor keydown listener: nothing while processing; otherwise relay the
      key, then update the local buffer. */
  function OnEditorKeydown(st: State, key: string, now: int): (r: Step)
    ensures st.processing ==> r == Step(st, [])
    ensures !st.processing ==> 1 <= |r.sent| <= 2 && r.sent[0] == KeydownMsg(key)
    ensures !st.processing ==> r.state == UpdateLocalBuffer(st, key, now).state
    ensures !st.processing ==> r.sent == [KeydownMsg(key)] + UpdateLocalBuffer(st, key, now).sent
  {
    if st.processing then Step(st, [])
    else
      var u := UpdateLocalBuffer(st, key, now);
      Step(u.state, [KeydownMsg(key)] + u.sent)
  }

  /** The text an input event forwards: the last 20 characters of `innerText`,
      or of `textContent` when `innerText` is empty. */
  function InputTail(innerText: string, textContent: string): (r: string)
    ensures var text := if innerText != "" then innerText else textContent;
            && |r| <= InputTailLength
            && EndsWith(text, r)
            && (|text| <= InputTailLength ==> r == text)
            && (|text| > InputTailLength ==> |r| == InputTailLength)
  {
    var text := if innerText != "" then innerText else textContent;
    if text == "" then "" else KeepLast(text, InputTailLength)
  }

  /** The editor input listener: nothing while processing, else one `inputChange`. */
  function OnEditorInput(st: State, innerText: string, textContent: string): (r: seq<Outgoing>)
    ensures st.processing ==> r == []
    ensures !st.processing ==> r == [InputChangeMsg(InputTail(innerText, textContent))]
  {
    if st.processing then [] else [InputChangeMsg(InputTail(innerText, textContent))]
  }

  /** The one-second timer that lowers the processing flag; nothing else changes. */
  function ReleaseProcessing(st: State): (r: State)
    ensures !r.processing
    ensures r.localKeyBuffer == st.localKeyBuffer && r.recent == st.recent && r.lastActiveEditor == st.lastActiveEditor
  {
    st.(processing := false)
  }

  /** An editor received focus and becomes the remembered one; nothing else changes. */
  function EditorFocused(st: State, editor: Element): (r: State)
    ensures r.lastActiveEditor == Some(editor)
    ensures r.localKeyBuffer == st.localKeyBuffer && r.recent == st.recent && r.processing == st.processing
  {
    st.(lastActiveEditor := Some(editor))
  }

  // ---------------------------------------------------------------------------
  // Insertion

  /** The selection's start: its container's text and the offset in it. */
  datatype Caret = Caret(text: string, offset: nat)

  /** What the handler reads from the page: the focused element, the first
      `[contenteditable="true"]` element, and the selection's first range. */
  datatype Page = Page(active: Element, firstEditable: Option<Element>, selection: Option<Caret>)

  /** A range offset never exceeds its container's length. */
  predicate WellFormed(page: Page) {
    page.selection.Some? ==> page.selection.value.offset <= |page.selection.value.text|
  }

  /** What the handler did to the page. `Spliced` also dispatches an `input`
      event on the target; `Appended` does not. */
  datatype Effect =
    | Dropped
    | NoTarget
    | Spliced(target: Element, node: Edited)
    | Appended(target: Element, content: string)

  datatype Insertion = Insertion(state: State, effect: Effect)

  /** The focused element if it is editable, else the remembered editor, else
      the first editable element of the document. */
  function ResolveTarget(active: Element, lastActive: Option<Element>, firstEditable: Option<Element>): (r: Option<Element>)
    ensures r.None? <==> !active.contentEditable && lastActive.None? && firstEditable.None?
    ensures active.contentEditable ==> r == Some(active)
    ensures !active.contentEditable && lastActive.Some? ==> r == lastActive
    ensures !active.contentEditable && lastActive.None? ==> r == firstEditable
  {
    if active.contentEditable then Some(active) else lastActive.OrElse(firstEditable)
  }

  /** The `insertTemplate` handler. A non-empty shortcut seen in the last 1500 ms
      drops the command. Otherwise, with a target: with a selection, the
      shortcut (when given) is recorded and its last occurrence in the caret's
      text node replaced by the content; without one, the target is focused
      and the content appended to it. Either way the local buffer is emptied. */
  function OnInsertTemplate(st: State, page: Page, content: string, shortcut: string, now: int): (r: Insertion)
    requires WellFormed(page)
    ensures shortcut != "" && Cooling(st.recent, shortcut, now, InsertCooldownMs) ==> r == Insertion(st, Dropped)
    ensures r.effect.Dropped? ==> shortcut != "" && Cooling(st.recent, shortcut, now, InsertCooldownMs)
    ensures r.effect.NoTarget? <==> !r.effect.Dropped? && ResolveTarget(page.active, st.lastActiveEditor, page.firstEditable).None?
    ensures r.effect.Dropped? || r.effect.NoTarget? ==> r.state == st
    ensures r.effect.Spliced? || r.effect.Appended? ==>
              && Some(r.effect.target) == ResolveTarget(page.active, st.lastActiveEditor, page.firstEditable)
              && r.state.localKeyBuffer == ""
              && r.state.processing == st.processing
    ensures r.effect.Spliced? ==>
              && page.selection.Some?
              && r.effect.node == InsertAtSelection(page.selection.value.text, page.selection.value.offset, shortcut, content)
              && r.state.recent == (if shortcut != "" then Record(st.recent, shortcut, now) else st.recent)
              && r.state.lastActiveEditor == st.lastActiveEditor
    ensures r.effect.Appended? ==>
              && page.selection.None? && r.effect.content == content && r.state.recent == st.recent
              && r.state.lastActiveEditor == (if page.active.contentEditable then st.lastActiveEditor else Some(r.effect.target))
  {
    if shortcut != "" && Cooling(st.recent, shortcut, now, InsertCooldownMs) then Insertion(st, Dropped)
    else
      match ResolveTarget(page.active, st.lastActiveEditor, page.firstEditable)
      case None => Insertion(st, NoTarget)
      case Some(target) =>
        match page.selection
        case Some(caret) =>
          var recent := if shortcut != "" then Record(st.recent, shortcut, now) else st.recent;
          Insertion(st.(recent := recent, localKeyBuffer := ""),
                    Spliced(target, InsertAtSelection(caret.text, caret.offset, shortcut, content)))
        case None =>
          // `focus()` moves focus to a target that does not hold it, and the
          // target's focus listener remembers it
          var focused := if page.active.contentEditable then st else EditorFocused(st, target);
          Insertion(focused.(localKeyBuffer := ""), Appended(target, content))
  }

  /** The page's own detector and the insertion handler share one table: once
      the detector has asked for a shortcut at a non-zero time `t0`, any
      `insertTemplate` for that shortcut arriving within 1500 ms is dropped. */
  lemma LocalDetectionDropsReply(st: State, t0: int, page: Page, content: string, t: int)
    requires WellFormed(page) && t0 != 0 && t0 <= t < t0 + InsertCooldownMs
    requires CheckForLocalShortcuts(st, t0).sent != []
    ensures var r := CheckForLocalShortcuts(st, t0);
            OnInsertTemplate(r.state, page, content, r.sent[0].shortcut, t) == Insertion(r.state, Dropped)
  {
    var r := CheckForLocalShortcuts(st, t0);
    var s := r.sent[0].shortcut;
    var i :| 0 <= i < |KnownShortcuts| && KnownShortcuts[i] == s && EndsWith(st.localKeyBuffer, s)
      && forall j :: 0 <= j < i ==> !EndsWith(st.localKeyBuffer, KnownShortcuts[j]);
    assert s != "";
  }

  /** The page's guard is on the shortcut the reply names. After the detector
      asks for `s`, a reply naming another spelling `s'` (the record's stored
      shortcut) is not dropped unless `s'` itself was cooling. */
  lemma VariantReplyNotDropped(st: State, t0: int, page: Page, content: string, other: string, t: int)
    requires WellFormed(page)
    requires CheckForLocalShortcuts(st, t0).sent != []
    requires other != CheckForLocalShortcuts(st, t0).sent[0].shortcut
    requires !Cooling(st.recent, other, t, InsertCooldownMs)
    ensures !OnInsertTemplate(CheckForLocalShortcuts(st, t0).state, page, content, other, t).effect.Dropped?
  {
  }
}
