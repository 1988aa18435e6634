/**
 * The host's editable text widget as the mention controller sees it, the
 * side effects handlers emit, and the two cursor-relative text operations:
 * finding the word at the caret and replacing it.
 */
module Widget {
  import opened Wrappers
  import opened Text

  /** What the widget reports: its current value and selection `[start, end)`. */
  datatype Snapshot = Snapshot(text: string, selectionStart: nat, selectionEnd: nat)
  {
    /** The selection is a caret, not a range. */
    predicate Collapsed() {
      selectionStart == selectionEnd
    }

    /** The selection lies inside the text, as a real widget reports it. */
    predicate WellFormed() {
      selectionStart <= selectionEnd <= |text|
    }

    /** `text.substring(0, selectionStart)` clamps an index past the end to the length. */
    function Cut(): (k: nat)
      ensures k <= |text| && k <= selectionStart
      ensures WellFormed() ==> k == selectionStart
    {
      if selectionStart <= |text| then selectionStart else |text|
    }
  }

  /** The reference to the widget: `None` until the widget has mounted. */
  type WidgetRef = Option<Snapshot>

  /** Side effects a handler performs on its collaborators, in order. */
  datatype Effect =
    | PreventDefault
    | ReplaceText(literal: string, start: int, end: int)
    | Post(message: string)
    | SetText(newText: string)
    | Log(line: string)

  /** The word ending at the caret, optionally extended to the next whitespace after it. */
  function WordAtCursor(w: WidgetRef, includeWordAfterCursor: bool): (r: string)
    ensures w.None? ==> r == ""
    ensures w.Some? && (|w.value.text| == 0 || !w.value.Collapsed()) ==> r == ""
    ensures w.Some? && w.value.Collapsed() && !includeWordAfterCursor ==>
      IsLastSegment(r, w.value.text[..w.value.Cut()], ' ')
    ensures w.Some? && !includeWordAfterCursor ==> ' ' !in r && |r| <= w.value.selectionStart
    ensures w.Some? && w.value.Collapsed() && includeWordAfterCursor && |w.value.text| > 0 ==>
      var before := LastSegment(w.value.text[..w.value.Cut()], ' ');
      |before| <= |r| && r[..|before|] == before && IsLeadingWord(r[|before|..], w.value.text[w.value.Cut()..])
  {
    match w
    case None => ""
    case Some(wd) =>
      if |wd.text| > 0 && wd.Collapsed() then
        var lastWord := LastSegment(wd.text[..wd.Cut()], ' ');
        if includeWordAfterCursor then
          var after := LeadingWord(wd.text[wd.Cut()..]);
          assert (lastWord + after)[|lastWord|..] == after;
          lastWord + after
        else
          lastWord
      else
        ""
  }

  /**
   * Replaces the word before the caret with `newWord`: one `ReplaceText` over
   * `[selectionStart - |word|, selectionStart)` when the caret is collapsed and
   * the word is non-empty, nothing otherwise.
   */
  function ReplaceWordAtCursor(w: WidgetRef, newWord: string): (r: seq<Effect>)
    ensures |r| <= 1
    ensures |r| == 1 <==> w.Some? && w.value.Collapsed() && WordAtCursor(w, false) != ""
    ensures |r| == 1 ==>
      var word := WordAtCursor(w, false);
      && r[0] == ReplaceText(newWord, w.value.selectionStart - |word|, w.value.selectionStart)
      && 0 <= r[0].start <= r[0].end
      && (w.value.WellFormed() ==> r[0].end <= |w.value.text| && w.value.text[r[0].start..r[0].end] == word)
  {
    match w
    case None => []
    case Some(wd) =>
      var word := WordAtCursor(w, false);
      if |word| > 0 && wd.Collapsed() then
        var startOfWord := wd.selectionStart - |word|;
        if startOfWord >= 0 then [ReplaceText(newWord, startOfWord, wd.selectionStart)] else []
      else
        []
  }

  /**
   * What the host widget does on `replaceText(literal, start, end)`: the span is
   * replaced and the caret lands after the inserted literal.
   */
  function ApplyReplace(wd: Snapshot, literal: string, start: nat, end: nat): (r: Snapshot)
    requires start <= end <= |wd.text|
    ensures r.WellFormed() && r.Collapsed()
    ensures |r.text| == |wd.text| - (end - start) + |literal|
    ensures r.selectionStart == start + |literal|
    ensures r.text[..start] == wd.text[..start]
    ensures r.text[start..r.selectionStart] == literal
    ensures r.text[r.selectionStart..] == wd.text[end..]
  {
    var text := wd.text[..start] + literal + wd.text[end..];
    assert text[start..start + |literal|] == literal;
    Snapshot(text, start + |literal|, start + |literal|)
  }
}
