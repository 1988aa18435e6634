/**
 * Properties of the mention controller that relate several operations: the
 * word replaced by a pick is the word the popup was filtering on, a live
 * switch keeps the popup filtering on the picked name, a committed pick ends
 * the mention, and no sequence of events ever lowers a counter.
 */
module MentionProperties {
  import opened Wrappers
  import opened Text
  import opened MentionSession
  import opened Widget
  import opened MentionHandlers

  /** The widget after the host performed the one `ReplaceText` an operation emitted. */
  function Replaced(wd: Snapshot, e: Effect): (r: Snapshot)
    requires e.ReplaceText? && 0 <= e.start <= e.end <= |wd.text|
    ensures r.Collapsed() && r.WellFormed()
    ensures r.text == wd.text[..e.start] + e.literal + wd.text[e.end..]
  {
    var r := ApplyReplace(wd, e.literal, e.start, e.end);
    assert r.text == r.text[..e.start] + r.text[e.start..r.selectionStart] + r.text[r.selectionStart..];
    r
  }

  /**
   * Replacing the word before the caret by `literal` leaves, before the new caret,
   * the untouched text up to a space (or the start) followed by `literal`.
   */
  lemma {:induction false} ReplacePrefix(wd: Snapshot, literal: string)
    requires wd.WellFormed() && wd.Collapsed() && WordAtCursor(Some(wd), false) != ""
    ensures var es := ReplaceWordAtCursor(Some(wd), literal);
      && |es| == 1 && es[0].ReplaceText? && 0 <= es[0].start <= es[0].end <= |wd.text|
      && var after := Replaced(wd, es[0]);
      && after.text[..after.selectionStart] == wd.text[..es[0].start] + literal
      && (es[0].start == 0 || wd.text[es[0].start - 1] == ' ')
  {
    var es := ReplaceWordAtCursor(Some(wd), literal);
    var word := WordAtCursor(Some(wd), false);
    assert IsLastSegment(word, wd.text[..wd.selectionStart], ' ');
    var start := es[0].start;
    assert start == wd.selectionStart - |word|;
    if start > 0 {
      assert wd.text[..wd.selectionStart][wd.selectionStart - |word| - 1] == ' ';
    }
    var after := ApplyReplace(wd, literal, start, es[0].end);
    assert after.text[..after.selectionStart] == after.text[..start] + after.text[start..after.selectionStart];
  }

  /**
   * A literal typed after a space (or at the start) is the last segment when it
   * holds no space, and leaves an empty last segment when it ends in one.
   */
  lemma LastSegmentAfterBoundary(p: string, literal: string)
    requires |p| == 0 || p[|p| - 1] == ' '
    ensures ' ' !in literal ==> IsLastSegment(literal, p + literal, ' ')
    ensures |literal| > 0 && literal[|literal| - 1] == ' ' ==> IsLastSegment("", p + literal, ' ')
  {
    var t := p + literal;
    assert t[|t| - |literal|..] == literal;
    if |t| > |literal| {
      assert t[|t| - |literal| - 1] == p[|p| - 1];
    }
  }

  /**
   * The word before the caret once the host has replaced the word: the inserted
   * literal itself when it holds no space, and nothing when it ends in a space.
   */
  lemma WordAfterReplace(wd: Snapshot, literal: string)
    requires wd.WellFormed() && wd.Collapsed() && WordAtCursor(Some(wd), false) != ""
    ensures var es := ReplaceWordAtCursor(Some(wd), literal);
      && |es| == 1 && es[0].ReplaceText? && 0 <= es[0].start <= es[0].end <= |wd.text|
      && var word := WordAtCursor(Some(Replaced(wd, es[0])), false);
      && (' ' !in literal ==> word == literal)
      && (|literal| > 0 && literal[|literal| - 1] == ' ' ==> word == "")
  {
    ReplacePrefix(wd, literal);
    var es := ReplaceWordAtCursor(Some(wd), literal);
    var p := wd.text[..es[0].start];
    assert |p| == 0 || p[|p| - 1] == ' ' by {
      if |p| > 0 {
        assert p[|p| - 1] == wd.text[es[0].start - 1];
      }
    }
    WordAfterPrefix(Replaced(wd, es[0]), p, literal);
  }

  /** The word before a caret that follows a boundary and then `literal`. */
  lemma WordAfterPrefix(after: Snapshot, p: string, literal: string)
    requires after.WellFormed() && after.Collapsed()
    requires after.text[..after.selectionStart] == p + literal
    requires |p| == 0 || p[|p| - 1] == ' '
    ensures ' ' !in literal ==> WordAtCursor(Some(after), false) == literal
    ensures |literal| > 0 && literal[|literal| - 1] == ' ' ==> WordAtCursor(Some(after), false) == ""
  {
    var before := p + literal;
    LastSegmentAfterBoundary(p, literal);
    var word := WordAtCursor(Some(after), false);
    assert IsLastSegment(word, before, ' ');
    if ' ' !in literal {
      LastSegmentUnique(literal, word, before, ' ');
    }
    if |literal| > 0 && literal[|literal| - 1] == ' ' {
      LastSegmentUnique("", word, before, ' ');
    }
  }

  /**
   * After `switchMention(u)` for a name without spaces, the word before the caret
   * is `"@u"`, so the next text change keeps the mention popup open filtering on `u`.
   */
  lemma SwitchMentionKeepsFilter(s: State, u: string, wd: Snapshot)
    requires wd.WellFormed() && wd.Collapsed() && WordAtCursor(Some(wd), false) != ""
    requires ' ' !in u
    ensures var r := SwitchMention(s, u, Some(wd));
      && r.state == s
      && |r.effects| == 1 && r.effects[0].ReplaceText?
      && 0 <= r.effects[0].start <= r.effects[0].end <= |wd.text|
      && var after := Some(Replaced(wd, r.effects[0]));
      && WordAtCursor(after, false) == "@" + u
      && OnChangeText(s, after.value.text, after).state == s.(mentionPopupOpen := true, mentionFilter := u)
  {
    var literal := "@" + u;
    assert ' ' !in literal;
    WordAfterReplace(wd, literal);
    assert StartsWith(literal, '@') && literal[1..] == u;
  }

  /** Same for `switchChannelMention(c)`: the channel popup stays open filtering on `c`. */
  lemma SwitchChannelMentionKeepsFilter(s: State, c: string, wd: Snapshot)
    requires wd.WellFormed() && wd.Collapsed() && WordAtCursor(Some(wd), false) != ""
    requires ' ' !in c
    ensures var r := SwitchChannelMention(s, c, Some(wd));
      && r.state == s
      && |r.effects| == 1 && r.effects[0].ReplaceText?
      && 0 <= r.effects[0].start <= r.effects[0].end <= |wd.text|
      && var after := Some(Replaced(wd, r.effects[0]));
      && WordAtCursor(after, false) == "#" + c
      && OnChangeText(s, after.value.text, after).state
         == s.(channelMentionPopupOpen := true, channelMentionFilter := c)
  {
    var literal := "#" + c;
    assert ' ' !in literal;
    WordAfterReplace(wd, literal);
    assert !StartsWith(literal, '@') && StartsWith(literal, '#') && literal[1..] == c;
  }

  /**
   * After `insertMention(u)` the caret follows the inserted space, so the word
   * before it is empty and the next text change closes both popups.
   */
  lemma InsertMentionEndsMention(s: State, u: string, wd: Snapshot)
    requires wd.WellFormed() && wd.Collapsed() && WordAtCursor(Some(wd), false) != ""
    ensures var r := InsertMention(s, u, false, wd.text, Some(wd));
      && r.state == s.(mentionPopupOpen := false)
      && |r.effects| == 1 && r.effects[0].ReplaceText?
      && 0 <= r.effects[0].start <= r.effects[0].end <= |wd.text|
      && var after := Some(Replaced(wd, r.effects[0]));
      && after.value.text == wd.text[..r.effects[0].start] + "@" + u + " " + wd.text[wd.selectionStart..]
      && WordAtCursor(after, false) == ""
      && !OnChangeText(r.state, after.value.text, after).state.PopupOpen()
  {
    var literal := "@" + u + " ";
    assert |literal| > 0 && literal[|literal| - 1] == ' ';
    WordAfterReplace(wd, literal);
    var es := ReplaceWordAtCursor(Some(wd), literal);
    var r := InsertMention(s, u, false, wd.text, Some(wd));
    assert r.effects == es by {
      assert PostFallback(false, wd.text) == [];
      assert es + [] == es;
    }
    var after := Replaced(wd, es[0]);
    assert after.text == wd.text[..es[0].start] + "@" + u + " " + wd.text[wd.selectionStart..] by {
      assert after.text == wd.text[..es[0].start] + literal + wd.text[es[0].end..];
    }
    assert WordAtCursor(Some(after), false) == "";
    assert !StartsWith("", '@') && !StartsWith("", '#');
  }

  /**
   * After `insertChannelMention(c)` the caret follows the inserted space, so the
   * word before it is empty and the next text change closes both popups.
   */
  lemma InsertChannelMentionEndsMention(s: State, c: string, wd: Snapshot)
    requires wd.WellFormed() && wd.Collapsed() && WordAtCursor(Some(wd), false) != ""
    ensures var r := InsertChannelMention(s, c, false, wd.text, Some(wd));
      && r.state == s.(channelMentionPopupOpen := false)
      && |r.effects| == 1 && r.effects[0].ReplaceText?
      && 0 <= r.effects[0].start <= r.effects[0].end <= |wd.text|
      && var after := Some(Replaced(wd, r.effects[0]));
      && after.value.text == wd.text[..r.effects[0].start] + "#" + c + " " + wd.text[wd.selectionStart..]
      && WordAtCursor(after, false) == ""
      && !OnChangeText(r.state, after.value.text, after).state.PopupOpen()
  {
    var literal := "#" + c + " ";
    assert |literal| > 0 && literal[|literal| - 1] == ' ';
    WordAfterReplace(wd, literal);
    var es := ReplaceWordAtCursor(Some(wd), literal);
    var r := InsertChannelMention(s, c, false, wd.text, Some(wd));
    assert r.effects == es by {
      assert PostFallback(false, wd.text) == [];
      assert es + [] == es;
    }
    var after := Replaced(wd, es[0]);
    assert after.text == wd.text[..es[0].start] + "#" + c + " " + wd.text[wd.selectionStart..] by {
      assert after.text == wd.text[..es[0].start] + literal + wd.text[es[0].end..];
    }
    assert WordAtCursor(Some(after), false) == "";
    assert !StartsWith("", '@') && !StartsWith("", '#');
  }

  /**
   * Typing `@name` after a space (or at the start) opens the mention popup
   * filtering on `name`. Without that boundary, as in `foo@bar`, the word before
   * the caret does not start with `@`.
   */
  lemma TypingMentionOpensPopup(s: State, after: Snapshot, p: string, name: string)
    requires after.WellFormed() && after.Collapsed()
    requires after.text[..after.selectionStart] == p + "@" + name
    requires |p| == 0 || p[|p| - 1] == ' '
    requires ' ' !in name
    ensures OnChangeText(s, after.text, Some(after)).state == s.(mentionPopupOpen := true, mentionFilter := name)
  {
    var literal := "@" + name;
    assert ' ' !in literal;
    assert p + "@" + name == p + literal;
    WordAfterPrefix(after, p, literal);
    assert StartsWith(literal, '@') && literal[1..] == name;
  }

  /** Typing `#name` after a space (or at the start) opens the channel popup filtering on `name`. */
  lemma TypingChannelMentionOpensPopup(s: State, after: Snapshot, p: string, name: string)
    requires after.WellFormed() && after.Collapsed()
    requires after.text[..after.selectionStart] == p + "#" + name
    requires |p| == 0 || p[|p| - 1] == ' '
    requires ' ' !in name
    ensures OnChangeText(s, after.text, Some(after)).state
      == s.(channelMentionPopupOpen := true, channelMentionFilter := name)
  {
    var literal := "#" + name;
    assert ' ' !in literal;
    assert p + "#" + name == p + literal;
    WordAfterPrefix(after, p, literal);
    assert !StartsWith(literal, '@') && StartsWith(literal, '#') && literal[1..] == name;
  }

  /** With no boundary before it, a trigger inside a word does not open a popup: `foo@bar`. */
  lemma TriggerInsideWordIgnored(s: State, after: Snapshot)
    requires after == Snapshot("foo@bar", 7, 7)
    ensures OnChangeText(s, after.text, Some(after)).state
      == s.(mentionPopupOpen := false, channelMentionPopupOpen := false, mentionFilter := "", channelMentionFilter := "")
  {
    assert after.text[..7] == after.text;
    assert IsLastSegment(after.text, after.text, ' ');
    LastSegmentUnique(after.text, WordAtCursor(Some(after), false), after.text, ' ');
    assert !StartsWith(after.text, '@') && !StartsWith(after.text, '#');
  }

  lemma ExampleWord(wd: Snapshot)
    requires wd == Snapshot("hi @al", 6, 6)
    ensures WordAtCursor(Some(wd), false) == "@al"
  {
    assert wd.text[..6] == "hi @al";
    assert IsLastSegment("@al", wd.text[..6], ' ') by {
      assert wd.text[..6][3..] == "@al";
      assert wd.text[..6][2] == ' ';
    }
    LastSegmentUnique("@al", WordAtCursor(Some(wd), false), wd.text[..6], ' ');
  }

  /** The worked example: picking `u = "alice"` while typing `hi @al` gives `hi @alice `. */
  lemma InsertMentionExample(wd: Snapshot, u: string)
    requires wd == Snapshot("hi @al", 6, 6) && u == "alice"
    ensures
      var r := InsertMention(Initial().(mentionPopupOpen := true, mentionFilter := "al"), u, false, wd.text, Some(wd));
      && r.effects == [ReplaceText("@" + u + " ", 3, 6)]
      && Replaced(wd, r.effects[0]).text == "hi " + "@" + u + " "
      && !r.state.mentionPopupOpen
  {
    ExampleEffects(wd, u);
    ExampleReplacedText(wd, "@" + u + " ");
  }

  /** The effects of the worked example: one replacement of `@al`, no fallback post. */
  lemma ExampleEffects(wd: Snapshot, u: string)
    requires wd == Snapshot("hi @al", 6, 6)
    ensures InsertMention(Initial().(mentionPopupOpen := true, mentionFilter := "al"), u, false, wd.text, Some(wd)).effects
      == [ReplaceText("@" + u + " ", 3, 6)]
  {
    ExampleWord(wd);
    assert PostFallback(false, wd.text) == [];
  }

  /** Replacing `@al` in the worked example keeps the `hi ` before it. */
  lemma ExampleReplacedText(wd: Snapshot, literal: string)
    requires wd == Snapshot("hi @al", 6, 6)
    ensures Replaced(wd, ReplaceText(literal, 3, 6)).text == "hi " + literal
  {
    assert wd.text[..3] == "hi " && wd.text[6..] == "";
  }

  // ---------------------------------------------------------------------------
  // Event traces

  /** One event the host or the display component delivers to the controller. */
  datatype Event =
    | KeyDown(key: string, shiftKey: bool, text: string)
    | KeyUp(key: string, widget: WidgetRef)
    | ChangeText(newText: string, widget: WidgetRef)
    | EnterKeyDown(isLoading: bool, text: string)
    | PickMention(name: string, notUser: bool, text: string, widget: WidgetRef)
    | PreviewMention(name: string, widget: WidgetRef)
    | PickChannel(name: string, notChannel: bool, text: string, widget: WidgetRef)
    | PreviewChannel(name: string, widget: WidgetRef)
    | SetMentionPopupOpenEvent(open: bool)
    | SetChannelMentionPopupOpenEvent(open: bool)

  /** Dispatches one event to its handler. */
  function Handle(s: State, e: Event): (r: Outcome)
    ensures CountersNotBelow(s, r.state)
    ensures !e.KeyDown? && !e.EnterKeyDown? ==> SameCounters(s, r.state)
  {
    match e
    case KeyDown(key, shiftKey, text) => OnKeyDown(s, key, shiftKey, text)
    case KeyUp(key, w) => OnKeyUp(s, key, w)
    case ChangeText(newText, w) => OnChangeText(s, newText, w)
    case EnterKeyDown(isLoading, text) => OnEnterKeyDown(s, isLoading, text)
    case PickMention(u, notUser, text, w) => InsertMention(s, u, notUser, text, w)
    case PreviewMention(u, w) => SwitchMention(s, u, w)
    case PickChannel(c, notChannel, text, w) => InsertChannelMention(s, c, notChannel, text, w)
    case PreviewChannel(c, w) => SwitchChannelMention(s, c, w)
    case SetMentionPopupOpenEvent(open) => SetMentionPopup(s, open)
    case SetChannelMentionPopupOpenEvent(open) => SetChannelMentionPopup(s, open)
  }

  /** Runs a sequence of events, collecting every effect in order. */
  function Run(s: State, events: seq<Event>): Outcome
    decreases |events|
  {
    if |events| == 0 then Outcome(s, [])
    else
      var first := Handle(s, events[0]);
      var rest := Run(first.state, events[1..]);
      Outcome(rest.state, first.effects + rest.effects)
  }

  /** The navigation counters never decrease over any sequence of events. */
  lemma {:induction false} RunNeverLowersCounters(s: State, events: seq<Event>)
    ensures CountersNotBelow(s, Run(s, events).state)
    decreases |events|
  {
    if |events| > 0 {
      RunNeverLowersCounters(Handle(s, events[0]).state, events[1..]);
    }
  }

  /** Enter never posts while a popup is open. */
  lemma EnterWithPopupNeverPosts(s: State, isLoading: bool, text: string)
    requires s.PopupOpen()
    ensures forall e :: e in OnEnterKeyDown(s, isLoading, text).effects ==> !e.Post?
  {
  }
}
