/** The text edit performed by the page's `insertTemplate` handler, with the
    caret's text node seen as a string and the template content as an opaque
    string inserted in one piece. */
module Splice {
  import opened Opt
  import opened Text

  /** A text node after an edit, and the offset of the collapsed page
      selection (the user's caret) left in it. */
  datatype Edited = Edited(text: string, caret: nat)

  /** Delete `text[pos..pos + len]` and insert `content` at `pos`, with the
      insertion range collapsed just after the inserted content
      (`deleteContents`, then `insertNode` and `collapse(false)` node after
      node). `caret` is that range's end. */
  function SpliceAt(text: string, pos: nat, len: nat, content: string): (r: Edited)
    requires pos + len <= |text|
    ensures r.caret == pos + |content| && |r.text| == |text| - len + |content|
    ensures pos <= |r.text| && r.text[..pos] == text[..pos]
    ensures pos <= r.caret <= |r.text| && r.text[pos..r.caret] == content
    ensures r.caret <= |r.text| && r.text[r.caret..] == text[pos + len..]
  {
    Edited(text[..pos] + content + text[pos + len..], pos + |content|)
  }

  /** Splicing the removed span back over the inserted content restores the
      original text: the edit touches nothing outside the span. */
  lemma SpliceUndo(text: string, pos: nat, len: nat, content: string)
    requires pos + len <= |text|
    ensures var r := SpliceAt(text, pos, len, content);
            SpliceAt(r.text, pos, |content|, text[pos..pos + len]).text == text
  {
    var r := SpliceAt(text, pos, len, content);
    var u := SpliceAt(r.text, pos, |content|, text[pos..pos + len]);
    assert u.text == text[..pos] + text[pos..pos + len] + text[pos + len..];
  }

  /** The selection branch of the handler: with a non-empty shortcut, delete its
      last occurrence in the caret's text node and insert the content there;
      when it does not occur (or no shortcut came), insert at the caret. The
      selection ends at the end of the insertion range, just after the content,
      as the `collapse(false)` at content.js:268 is meant to leave it. */
  function InsertAtSelection(text: string, caret: nat, shortcut: string, content: string): (r: Edited)
    requires caret <= |text|
    ensures |content| <= r.caret <= |r.text|
    ensures shortcut != "" ==> forall p :: IsLastOccurrence(text, shortcut, p) ==>
              && r.caret == p + |content| && r.caret <= |r.text|
              && r.text[..p] == text[..p]
              && r.text[p..r.caret] == content
              && r.text[r.caret..] == text[p + |shortcut|..]
    ensures shortcut == "" || !Includes(text, shortcut) ==>
              r.text == text[..caret] + content + text[caret..] && r.caret == caret + |content|
  {
    var found := if shortcut == "" then None else LastIndexOf(text, shortcut);
    match found
    case Some(p) => SpliceAt(text, p, |shortcut|, content)
    case None => SpliceAt(text, caret, 0, content)
  }

  /** Where the live selection ends up when a separate range deletes
      `len` characters at `p` and inserts `inserted` characters there. By the
      DOM's range mutation rules a boundary before the span stays, one inside it
      is pulled back to `p`, and one after it moves with the text that follows.
      The boundary at `p` stays in the first half of the split text node, so it
      lies before the inserted content. */
  function SelectionAfterSplice(caret: nat, p: nat, len: nat, inserted: nat): nat {
    if caret <= p then caret
    else if caret <= p + len then p
    else caret - len + inserted
  }

  /** The selection branch as written. When the shortcut is found, the handler
      switches to a fresh range (content.js:249, 257), so `collapse(false)` moves
      only that range and the page selection stays where the mutations left it.
      Otherwise the range is the selection's own live range and the caret ends
      after the content. The text edit is the same either way. */
  function InsertAtSelectionAsWritten(text: string, caret: nat, shortcut: string, content: string): (r: Edited)
    requires caret <= |text|
    ensures r.text == InsertAtSelection(text, caret, shortcut, content).text
    ensures r.caret <= |r.text|
    ensures shortcut != "" ==> forall p :: IsLastOccurrence(text, shortcut, p) && caret <= p ==>
              r.caret == caret && r.text[..r.caret] == text[..caret]
    ensures shortcut != "" ==> forall p :: IsLastOccurrence(text, shortcut, p) && p < caret <= p + |shortcut| ==>
              r.caret == p && r.caret + |content| <= |r.text| && r.text[r.caret..r.caret + |content|] == content
    ensures shortcut != "" ==> forall p :: IsLastOccurrence(text, shortcut, p) && p + |shortcut| < caret ==>
              r.text[r.caret..] == text[caret..]
    ensures shortcut == "" || !Includes(text, shortcut) ==> r.caret == caret + |content|
  {
    var e := InsertAtSelection(text, caret, shortcut, content);
    var found := if shortcut == "" then None else LastIndexOf(text, shortcut);
    match found
    case Some(p) =>
      var c := SelectionAfterSplice(caret, p, |shortcut|, |content|);
      assert caret > p + |shortcut| ==> e.text[c..] == text[caret..] by {
        if caret > p + |shortcut| {
          assert e.text[p + |content|..] == text[p + |shortcut|..];
          assert e.text[c..] == e.text[p + |content|..][caret - p - |shortcut|..];
        }
      }
      Edited(e.text, c)
    case None => e
  }

  /** As written, typing a shortcut at the end of a text node and expanding a
      non-empty template leaves the caret before the template, `|content|`
      characters short of where the insertion range ends. */
  lemma CaretBeforeTemplateAsWritten(text: string, shortcut: string, content: string)
    requires shortcut != "" && content != "" && EndsWith(text, shortcut)
    ensures var a := InsertAtSelectionAsWritten(text, |text|, shortcut, content);
            var c := InsertAtSelection(text, |text|, shortcut, content);
            && a.text == c.text
            && a.caret + |content| == c.caret
            && a.text[a.caret..c.caret] == content
  {
    var p := |text| - |shortcut|;
    assert OccursAt(text, shortcut, p);
    assert IsLastOccurrence(text, shortcut, p);
  }

  /** The shortcut is removed exactly once: no occurrence starts after the
      replaced one, and putting the shortcut back in place of the content gives
      the original text. */
  lemma ShortcutRemovedOnce(text: string, caret: nat, shortcut: string, content: string)
    requires caret <= |text| && shortcut != "" && Includes(text, shortcut)
    ensures var r := InsertAtSelection(text, caret, shortcut, content);
            exists p :: IsLastOccurrence(text, shortcut, p) && r.caret == p + |content|
              && SpliceAt(r.text, p, |content|, shortcut).text == text
  {
    var p := LastIndexOf(text, shortcut).value;
    SpliceUndo(text, p, |shortcut|, content);
  }

  /** The worked example: `prefix\wsd` with the caret at its end becomes
      `prefix<b>hello</b>` with the caret after the inserted markup. */
  lemma ExpandExample()
    ensures InsertAtSelection("prefix\\wsd", 10, "\\wsd", "<b>hello</b>") == Edited("prefix<b>hello</b>", 18)
  {
    assert OccursAt("prefix\\wsd", "\\wsd", 6);
  }

  /** The worked example as written: the text is the same, but the caret is
      left at 6, before `<b>hello</b>`. */
  lemma ExpandExampleAsWritten()
    ensures InsertAtSelectionAsWritten("prefix\\wsd", 10, "\\wsd", "<b>hello</b>") == Edited("prefix<b>hello</b>", 6)
  {
    assert OccursAt("prefix\\wsd", "\\wsd", 6);
    assert IsLastOccurrence("prefix\\wsd", "\\wsd", 6);
    ExpandExample();
  }
}
