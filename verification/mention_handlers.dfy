/**
 * The mention autocomplete controller: key-down, key-up, Enter and
 * text-change handlers, mention insertion and the popup setters.
 *
 * Each handler reads the state as it was before the event (state updates are
 * deferred), schedules updates, and performs effects on the host; it returns
 * the state after its updates have been applied, in order, together with the
 * effects it performed, in order.
 */
module MentionHandlers {
  import opened Wrappers
  import opened Text
  import opened MentionSession
  import opened Widget

  datatype Outcome = Outcome(state: State, effects: seq<Effect>)

  const LoadingLogLine := "Ignoring chat submit while still loading"

  predicate StartsWith(word: string, sigil: char) {
    |word| > 0 && word[0] == sigil
  }

  /** `text[text.length - 1] === c`; indexing an empty string yields `undefined`. */
  predicate LastCharIs(text: string, c: char) {
    |text| > 0 && text[|text| - 1] == c
  }

  /** Keys that close both popups on key-down. */
  predicate IsDismissKey(key: string) {
    key == "Escape" || key == "ArrowLeft" || key == "ArrowRight"
  }

  /** Keys whose key-up is ignored while a popup is open. */
  predicate IsListKey(key: string) {
    key == "ArrowUp" || key == "ArrowDown" || key == "Shift" || key == "Tab"
  }

  /** Keys key-down consumes while a popup is open. */
  predicate IsPopupKey(key: string) {
    key == "Tab" || key == "ArrowUp" || key == "ArrowDown" || IsDismissKey(key)
  }

  // ---------------------------------------------------------------------------
  // Popup state manager

  /** Updates scheduled for the word typed so far (shared by key-up and text change). */
  function WordUpdates(s: State, word: string): seq<Update> {
    if StartsWith(word, '@') then
      (if !s.mentionPopupOpen then [SetMentionPopupOpen(true)] else [])
      + [SetMentionFilter(word[1..])]
    else if StartsWith(word, '#') then
      (if !s.channelMentionPopupOpen then [SetChannelMentionPopupOpen(true)] else [])
      + [SetChannelMentionFilter(word[1..])]
    else
      [SetChannelMentionFilter(""), SetMentionFilter("")]
      + (if s.mentionPopupOpen then [SetMentionPopupOpen(false)] else [])
      + (if s.channelMentionPopupOpen then [SetChannelMentionPopupOpen(false)] else [])
  }

  /**
   * A word starting with `@` opens the mention popup with the rest of the word as
   * its filter and leaves the channel popup alone; `#` does the same for the
   * channel popup; any other word clears both filters and closes both popups.
   */
  function UpdateFromWord(s: State, word: string): (t: State)
    ensures StartsWith(word, '@') ==>
      t == s.(mentionPopupOpen := true, mentionFilter := word[1..])
    ensures !StartsWith(word, '@') && StartsWith(word, '#') ==>
      t == s.(channelMentionPopupOpen := true, channelMentionFilter := word[1..])
    ensures !StartsWith(word, '@') && !StartsWith(word, '#') ==>
      t == s.(mentionPopupOpen := false, channelMentionPopupOpen := false,
              mentionFilter := "", channelMentionFilter := "")
    ensures SameCounters(s, t)
  {
    WordUpdatesApplied(s, word);
    ApplyAll(s, WordUpdates(s, word))
  }

  lemma WordUpdatesApplied(s: State, word: string)
    ensures var t := ApplyAll(s, WordUpdates(s, word));
      && (StartsWith(word, '@') ==> t == s.(mentionPopupOpen := true, mentionFilter := word[1..]))
      && (!StartsWith(word, '@') && StartsWith(word, '#') ==>
            t == s.(channelMentionPopupOpen := true, channelMentionFilter := word[1..]))
      && (!StartsWith(word, '@') && !StartsWith(word, '#') ==>
            t == s.(mentionPopupOpen := false, channelMentionPopupOpen := false,
                    mentionFilter := "", channelMentionFilter := ""))
  {
    if StartsWith(word, '@') {
      if !s.mentionPopupOpen {
        ApplyAllPair(s, SetMentionPopupOpen(true), SetMentionFilter(word[1..]));
      } else {
        ApplyAllSingle(s, SetMentionFilter(word[1..]));
      }
    } else if StartsWith(word, '#') {
      if !s.channelMentionPopupOpen {
        ApplyAllPair(s, SetChannelMentionPopupOpen(true), SetChannelMentionFilter(word[1..]));
      } else {
        ApplyAllSingle(s, SetChannelMentionFilter(word[1..]));
      }
    } else {
      var a := [SetChannelMentionFilter(""), SetMentionFilter("")];
      var b := if s.mentionPopupOpen then [SetMentionPopupOpen(false)] else [];
      var c := if s.channelMentionPopupOpen then [SetChannelMentionPopupOpen(false)] else [];
      ApplyAllAppend(s, a + b, c);
      ApplyAllAppend(s, a, b);
      var s1 := ApplyAll(s, a);
      ApplyAllPair(s, SetChannelMentionFilter(""), SetMentionFilter(""));
      var s2 := ApplyAll(s1, b);
      if s.mentionPopupOpen { ApplyAllSingle(s1, SetMentionPopupOpen(false)); } else { ApplyAllEmpty(s1); }
      if s.channelMentionPopupOpen { ApplyAllSingle(s2, SetChannelMentionPopupOpen(false)); } else { ApplyAllEmpty(s2); }
    }
  }

  /** `setMentionPopupOpen`, exposed to the display component. */
  function SetMentionPopup(s: State, open: bool): (r: Outcome)
    ensures r.state.mentionPopupOpen == open && r.effects == []
    ensures r.state.(mentionPopupOpen := s.mentionPopupOpen) == s
  {
    ApplyAllSingle(s, SetMentionPopupOpen(open));
    Outcome(ApplyAll(s, [SetMentionPopupOpen(open)]), [])
  }

  /** `setChannelMentionPopupOpen`, exposed to the display component. */
  function SetChannelMentionPopup(s: State, open: bool): (r: Outcome)
    ensures r.state.channelMentionPopupOpen == open && r.effects == []
    ensures r.state.(channelMentionPopupOpen := s.channelMentionPopupOpen) == s
  {
    ApplyAllSingle(s, SetChannelMentionPopupOpen(open));
    Outcome(ApplyAll(s, [SetChannelMentionPopupOpen(open)]), [])
  }

  // ---------------------------------------------------------------------------
  // Key event router

  /** Key-down handling past the popup keys: trigger characters and Backspace at a trigger. */
  function TriggerUpdates(s: State, key: string, text: string): seq<Update> {
    SigilUpdates(key) + MentionBackUpdates(s, key, text) + ChannelBackUpdates(s, key, text)
  }

  /** Typing `@` or `#` opens the matching popup. */
  function SigilUpdates(key: string): seq<Update> {
    if key == "@" then [SetMentionPopupOpen(true)]
    else if key == "#" then [SetChannelMentionPopupOpen(true)]
    else []
  }

  /** Backspace with the mention popup open and `@` last in the text closes it. */
  function MentionBackUpdates(s: State, key: string, text: string): seq<Update> {
    if s.mentionPopupOpen && key == "Backspace" && LastCharIs(text, '@')
    then [SetMentionFilter(""), SetMentionPopupOpen(false)] else []
  }

  /** Backspace with the channel popup open and `#` last in the text closes it. */
  function ChannelBackUpdates(s: State, key: string, text: string): seq<Update> {
    if s.channelMentionPopupOpen && key == "Backspace" && LastCharIs(text, '#')
    then [SetChannelMentionFilter(""), SetChannelMentionPopupOpen(false)] else []
  }

  lemma TriggerUpdatesApplied(s: State, key: string, text: string)
    ensures var t := ApplyAll(s, TriggerUpdates(s, key, text));
      && SameCounters(s, t)
      && (key == "@" ==> t == s.(mentionPopupOpen := true))
      && (key == "#" ==> t == s.(channelMentionPopupOpen := true))
      && (key != "@" && key != "#" && key != "Backspace" ==> t == s)
      && (key == "Backspace" ==> t == BackspaceResult(s, text))
  {
    if key != "Backspace" {
      assert MentionBackUpdates(s, key, text) == [] && ChannelBackUpdates(s, key, text) == [];
      assert TriggerUpdates(s, key, text) == SigilUpdates(key);
      if key == "@" {
        ApplyAllSingle(s, SetMentionPopupOpen(true));
      } else if key == "#" {
        ApplyAllSingle(s, SetChannelMentionPopupOpen(true));
      }
    } else {
      assert SigilUpdates(key) == [];
      BackspaceUpdatesApplied(s, text);
    }
  }

  /**
   * Backspace over a trigger character: each open popup whose trigger ends the
   * text is closed and its filter cleared; the other popup is left alone.
   */
  function BackspaceResult(s: State, text: string): (t: State)
    ensures SameCounters(s, t)
    ensures s.mentionPopupOpen && LastCharIs(text, '@') ==>
      !t.mentionPopupOpen && t.mentionFilter == ""
    ensures !(s.mentionPopupOpen && LastCharIs(text, '@')) ==>
      t.mentionPopupOpen == s.mentionPopupOpen && t.mentionFilter == s.mentionFilter
    ensures s.channelMentionPopupOpen && LastCharIs(text, '#') ==>
      !t.channelMentionPopupOpen && t.channelMentionFilter == ""
    ensures !(s.channelMentionPopupOpen && LastCharIs(text, '#')) ==>
      t.channelMentionPopupOpen == s.channelMentionPopupOpen && t.channelMentionFilter == s.channelMentionFilter
  {
    var mentionBack := s.mentionPopupOpen && LastCharIs(text, '@');
    var channelBack := s.channelMentionPopupOpen && LastCharIs(text, '#');
    s.(mentionPopupOpen := if mentionBack then false else s.mentionPopupOpen,
       mentionFilter := if mentionBack then "" else s.mentionFilter,
       channelMentionPopupOpen := if channelBack then false else s.channelMentionPopupOpen,
       channelMentionFilter := if channelBack then "" else s.channelMentionFilter)
  }

  lemma BackspaceUpdatesApplied(s: State, text: string)
    ensures ApplyAll(s, MentionBackUpdates(s, "Backspace", text) + ChannelBackUpdates(s, "Backspace", text))
      == BackspaceResult(s, text)
  {
    var b := MentionBackUpdates(s, "Backspace", text);
    var c := ChannelBackUpdates(s, "Backspace", text);
    ApplyAllAppend(s, b, c);
    var s1 := ApplyAll(s, b);
    if b == [] { ApplyAllEmpty(s); } else { ApplyAllPair(s, SetMentionFilter(""), SetMentionPopupOpen(false)); }
    if c == [] {
      ApplyAllEmpty(s1);
    } else {
      ApplyAllPair(s1, SetChannelMentionFilter(""), SetChannelMentionPopupOpen(false));
    }
  }

  /**
   * Key-down while a popup is open, for the keys that drive the popup: Tab picks
   * or moves, the vertical arrows move, Escape and the horizontal arrows dismiss.
   */
  function PopupKeyDown(s: State, key: string, shiftKey: bool): (r: Outcome)
    requires s.PopupOpen() && IsPopupKey(key)
    ensures r.effects == (if IsDismissKey(key) then [] else [PreventDefault])
    ensures key == "Tab" && s.HasFilter() ==>
      r.state == s.(pickSelectedCounter := s.pickSelectedCounter + 1)
    ensures key == "Tab" && !s.HasFilter() && shiftKey ==>
      r.state == s.(upArrowCounter := s.upArrowCounter + 1)
    ensures key == "Tab" && !s.HasFilter() && !shiftKey ==>
      r.state == s.(downArrowCounter := s.downArrowCounter + 1)
    ensures key == "ArrowUp" ==> r.state == s.(upArrowCounter := s.upArrowCounter + 1)
    ensures key == "ArrowDown" ==> r.state == s.(downArrowCounter := s.downArrowCounter + 1)
    ensures IsDismissKey(key) ==>
      r.state == s.(mentionPopupOpen := false, channelMentionPopupOpen := false)
  {
    if key == "Tab" then
      var u :=
        if s.HasFilter() then TriggerPickSelected
        else if shiftKey then TriggerUpArrow
        else TriggerDownArrow;
      ApplyAllSingle(s, u);
      Outcome(ApplyAll(s, [u]), [PreventDefault])
    else if key == "ArrowUp" then
      ApplyAllSingle(s, TriggerUpArrow);
      Outcome(ApplyAll(s, [TriggerUpArrow]), [PreventDefault])
    else if key == "ArrowDown" then
      ApplyAllSingle(s, TriggerDownArrow);
      Outcome(ApplyAll(s, [TriggerDownArrow]), [PreventDefault])
    else
      ApplyAllPair(s, SetMentionPopupOpen(false), SetChannelMentionPopupOpen(false));
      Outcome(ApplyAll(s, [SetMentionPopupOpen(false), SetChannelMentionPopupOpen(false)]), [])
  }

  /**
   * `onKeyDown` for the normalised `key`, the event's `shiftKey` and the host's
   * current `text`.
   */
  function OnKeyDown(s: State, key: string, shiftKey: bool, text: string): (r: Outcome)
    ensures CountersNotBelow(s, r.state)
    ensures r.effects == (if s.PopupOpen() && (key == "Tab" || key == "ArrowUp" || key == "ArrowDown")
                          then [PreventDefault] else [])
    // Tab with a partial name picks the selected entry.
    ensures s.PopupOpen() && key == "Tab" && s.HasFilter() ==>
      r.state == s.(pickSelectedCounter := s.pickSelectedCounter + 1)
    // Tab with nothing typed moves through the list.
    ensures s.PopupOpen() && key == "Tab" && !s.HasFilter() && shiftKey ==>
      r.state == s.(upArrowCounter := s.upArrowCounter + 1)
    ensures s.PopupOpen() && key == "Tab" && !s.HasFilter() && !shiftKey ==>
      r.state == s.(downArrowCounter := s.downArrowCounter + 1)
    ensures s.PopupOpen() && key == "ArrowUp" ==>
      r.state == s.(upArrowCounter := s.upArrowCounter + 1)
    ensures s.PopupOpen() && key == "ArrowDown" ==>
      r.state == s.(downArrowCounter := s.downArrowCounter + 1)
    // Escape and horizontal arrows close both popups, keeping filters and counters.
    ensures s.PopupOpen() && IsDismissKey(key) ==>
      r.state == s.(mentionPopupOpen := false, channelMentionPopupOpen := false)
    // Trigger characters open their popup whatever the state.
    ensures key == "@" ==> r.state == s.(mentionPopupOpen := true)
    ensures key == "#" ==> r.state == s.(channelMentionPopupOpen := true)
    // Backspace over a trigger that is the last character of the text dismisses its popup.
    ensures key == "Backspace" ==>
      var mentionBack := s.mentionPopupOpen && LastCharIs(text, '@');
      var channelBack := s.channelMentionPopupOpen && LastCharIs(text, '#');
      r.state == s.(mentionPopupOpen := if mentionBack then false else s.mentionPopupOpen,
                    mentionFilter := if mentionBack then "" else s.mentionFilter,
                    channelMentionPopupOpen := if channelBack then false else s.channelMentionPopupOpen,
                    channelMentionFilter := if channelBack then "" else s.channelMentionFilter)
    // Any other key changes nothing.
    ensures !(s.PopupOpen() && IsPopupKey(key)) && key != "@" && key != "#" && key != "Backspace" ==>
      r.state == s
  {
    if s.PopupOpen() && IsPopupKey(key) then
      PopupKeyDown(s, key, shiftKey)
    else
      TriggerUpdatesApplied(s, key, text);
      Outcome(ApplyAll(s, TriggerUpdates(s, key, text)), [])
  }

  /**
   * `onKeyUp`: while a popup is open, or after Backspace, the word before the
   * caret is fed to the popup state; list navigation keys are ignored.
   */
  function OnKeyUp(s: State, key: string, w: WidgetRef): (r: Outcome)
    ensures r.effects == [] && SameCounters(s, r.state)
    ensures s.PopupOpen() && IsListKey(key) ==> r.state == s
    ensures s.PopupOpen() && !IsListKey(key) ==> r.state == UpdateFromWord(s, WordAtCursor(w, false))
    ensures !s.PopupOpen() && key == "Backspace" ==> r.state == UpdateFromWord(s, WordAtCursor(w, false))
    ensures !s.PopupOpen() && key != "Backspace" ==> r.state == s
  {
    if s.PopupOpen() && IsListKey(key) then
      Outcome(s, [])
    else if s.PopupOpen() || key == "Backspace" then
      Outcome(UpdateFromWord(s, WordAtCursor(w, false)), [])
    else
      Outcome(s, [])
  }

  /** `onChangeText`: hands the new text to the host, then re-reads the word before the caret. */
  function OnChangeText(s: State, newText: string, w: WidgetRef): (r: Outcome)
    ensures r.effects == [SetText(newText)]
    ensures r.state == UpdateFromWord(s, WordAtCursor(w, false))
  {
    Outcome(UpdateFromWord(s, WordAtCursor(w, false)), [SetText(newText)])
  }

  /**
   * `onEnterKeyDown`: always suppresses the default; picks the selected entry
   * while a popup is open; otherwise ignores Enter while loading, and posts and
   * clears a non-empty text.
   */
  function OnEnterKeyDown(s: State, isLoading: bool, text: string): (r: Outcome)
    ensures |r.effects| >= 1 && r.effects[0] == PreventDefault
    ensures s.PopupOpen() ==>
      r == Outcome(s.(pickSelectedCounter := s.pickSelectedCounter + 1), [PreventDefault])
    ensures !s.PopupOpen() ==> r.state == s
    ensures !s.PopupOpen() && isLoading ==> r.effects == [PreventDefault, Log(LoadingLogLine)]
    ensures !s.PopupOpen() && !isLoading && text != "" ==>
      r.effects == [PreventDefault, Post(text), SetText("")]
    ensures !s.PopupOpen() && !isLoading && text == "" ==> r.effects == [PreventDefault]
  {
    if s.PopupOpen() then
      ApplyAllSingle(s, TriggerPickSelected);
      Outcome(ApplyAll(s, [TriggerPickSelected]), [PreventDefault])
    else if isLoading then
      Outcome(s, [PreventDefault, Log(LoadingLogLine)])
    else if text != "" then
      Outcome(s, [PreventDefault, Post(text), SetText("")])
    else
      Outcome(s, [PreventDefault])
  }

  // ---------------------------------------------------------------------------
  // Selection commit

  /** Posts and clears the host's text when the pick was not a real entry. */
  function PostFallback(notEntry: bool, text: string): (r: seq<Effect>)
    ensures notEntry && text != "" ==> r == [Post(text), SetText("")]
    ensures !(notEntry && text != "") ==> r == []
  {
    if notEntry && text != "" then [Post(text), SetText("")] else []
  }

  /**
   * `insertMention(u, {notUser})`: replaces the word before the caret with
   * `"@u "`, closes the mention popup only, and with `notUser` posts and clears
   * the host's `text` (not the replaced buffer).
   */
  function InsertMention(s: State, u: string, notUser: bool, text: string, w: WidgetRef): (r: Outcome)
    ensures r.state == s.(mentionPopupOpen := false)
    ensures r.effects == ReplaceWordAtCursor(w, "@" + u + " ") + PostFallback(notUser, text)
  {
    ApplyAllSingle(s, SetMentionPopupOpen(false));
    Outcome(ApplyAll(s, [SetMentionPopupOpen(false)]),
            ReplaceWordAtCursor(w, "@" + u + " ") + PostFallback(notUser, text))
  }

  /** `switchMention(u)`: replaces the word with `"@u"` and leaves the state alone. */
  function SwitchMention(s: State, u: string, w: WidgetRef): (r: Outcome)
    ensures r.state == s
    ensures r.effects == ReplaceWordAtCursor(w, "@" + u)
  {
    Outcome(s, ReplaceWordAtCursor(w, "@" + u))
  }

  /**
   * `insertChannelMention(c, {notChannel})`: replaces the word with `"#c "`,
   * closes the channel popup only, and with `notChannel` posts and clears.
   */
  function InsertChannelMention(s: State, c: string, notChannel: bool, text: string, w: WidgetRef): (r: Outcome)
    ensures r.state == s.(channelMentionPopupOpen := false)
    ensures r.effects == ReplaceWordAtCursor(w, "#" + c + " ") + PostFallback(notChannel, text)
  {
    ApplyAllSingle(s, SetChannelMentionPopupOpen(false));
    Outcome(ApplyAll(s, [SetChannelMentionPopupOpen(false)]),
            ReplaceWordAtCursor(w, "#" + c + " ") + PostFallback(notChannel, text))
  }

  /** `switchChannelMention(c)`: replaces the word with `"#c"` and leaves the state alone. */
  function SwitchChannelMention(s: State, c: string, w: WidgetRef): (r: Outcome)
    ensures r.state == s
    ensures r.effects == ReplaceWordAtCursor(w, "#" + c)
  {
    Outcome(s, ReplaceWordAtCursor(w, "#" + c))
  }
}
