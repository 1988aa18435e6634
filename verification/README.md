# Mention autocomplete controller and favourites store, in Dafny

This project models two pure-logic parts of a chat client.

The first is the **mention autocomplete controller** that wraps the chat composer. It watches key-down, key-up, Enter and text-change events. It works out the word ending at the caret and opens, filters and closes two suggestion popups: `@user` mentions and `#channel` mentions. It also emits "navigation counter" signals for those popups and replaces the word at the caret when an entry is picked.

The second is the **favourites reducer**: a `(state, action) → state` function. Its state holds the private and public folder lists, their view toggles, and the FUSE/KBFS installation status.

Modules:

- `Text` (`text.dfy`): the JavaScript string primitives the controller relies on. These are `split(' ')` with its last segment, `search(/\s/)`, and the ECMAScript `\s` class. `Split` is pinned down by its round trip through `Join` and by `SplitUnique`. The last segment and the leading word each have an independent characterisation with a uniqueness lemma (`LastSegmentUnique`, `LeadingWordUnique`). `SearchWhitespace` is characterised as the index of the first `\s` character. `IsJsWhitespace` is the definition of `\s` itself.
- `MentionSession` (`mention_state.dfy`): the seven-field component state and the deferred state updates. React's `setState` is deferred, so a handler reads the state as it was before the event. It schedules `Update`s, and `ApplyAll` applies them afterwards, in order.
- `Widget` (`widget.dfy`): the host text widget as a snapshot. `WidgetRef = Option<Snapshot>`, where `None` means the ref is not set yet. This module also holds the effects a handler performs, `_getWordAtCursor` (`WordAtCursor`) and `_replaceWordAtCursor` (`ReplaceWordAtCursor`).
- `MentionHandlers` (`mention_handlers.dfy`): `onKeyDown`, `onKeyUp`, `onChangeText`, `onEnterKeyDown`, `insertMention`/`switchMention`, `insertChannelMention`/`switchChannelMention` and the popup setters. Each is a pure function that returns the new state plus the ordered list of effects: `PreventDefault`, `ReplaceText(literal, start, end)`, `Post(text)`, `SetText(text)` and `Log(line)`.
- `MentionProperties` (`mention_properties.dfy`): properties that span several operations. These cover the text after a pick, the word the popup sees after a pick, and counters over whole event traces.
- `Favorite` (`favorite.dfy`) and `FavoriteProperties` (`favorite_properties.dfy`): the reducer and its properties.

Host inputs are parameters:

- `props.text`
- `props.isLoading`
- the normalised key string
- `shiftKey`
- the widget's value and selection

The model keeps these source-level details:

- The Backspace dismissal tests the last character of the whole `props.text`, not the character before the caret.
- An `@` word opens the mention popup without closing the channel popup.
- The `notUser`/`notChannel` fallback posts `props.text`, not the buffer after the replacement.
- The backward split is on `' '` only, while the forward scan stops at any `\s` character.

With the caret not at the end of the text, Backspace over an `@` just before the caret closes the mention popup only if the text also ends in `@`: the check reads the last character of `props.text`, not the character before the caret (`mention-handlers.hoc.js:152-158`). The same holds for `#` (`:159-165`). `OnKeyDown` and `BackspaceResult` state this rule.

## Model

| member | source | states |
|---|---|---|
| MentionSession.Initial | shared/chat/conversation/input/mention-handlers.hoc.js:34-42 | the component starts with all three counters at zero, both filters empty and both popups closed |
| MentionSession.Apply | shared/chat/conversation/input/mention-handlers.hoc.js:45-59 | each setter changes exactly its own field; each counter trigger raises exactly its own counter by one; nothing else changes |
| MentionSession.ApplyAll | shared/chat/conversation/input/mention-handlers.hoc.js:102-112 | applying deferred updates in order raises each counter by exactly the number of its triggers, so no counter ever decreases |
| MentionSession.ApplyAllAppend | shared/chat/conversation/input/mention-handlers.hoc.js:45-59 | applying the updates of `a + b` is applying `a` and then `b`, the order in which a handler schedules them |
| Text.SplitUnique | shared/chat/conversation/input/mention-handlers.hoc.js:200 | any separator-free pieces that join back to the input are exactly the pieces `split(' ')` returns, so the round trip determines the split |
| Text.IsJsWhitespace | shared/chat/conversation/input/mention-handlers.hoc.js:204 | `\s` matches exactly the ECMAScript WhiteSpace and LineTerminator code points: tab, line feed, vertical tab, form feed, carriage return, space, no-break space, U+1680, U+2000-U+200A, the line and paragraph separators, U+202F, U+205F, U+3000 and the byte-order mark |
| Text.Split | shared/chat/conversation/input/mention-handlers.hoc.js:200 | `split(' ')` returns at least one piece; no piece holds the separator; joining the pieces with it gives back the input |
| Text.LastPieceIsLastSegment | shared/chat/conversation/input/mention-handlers.hoc.js:200-201 | for any pieces free of the separator, the last piece is a suffix of their join without the separator, and is either the whole join or preceded by the separator |
| Text.LastSegment | shared/chat/conversation/input/mention-handlers.hoc.js:200-201 | `words[words.length - 1]` after `split(' ')` is that last segment of the text before the caret |
| Text.LastSegmentUnique | shared/chat/conversation/input/mention-handlers.hoc.js:200-201 | at most one string is such a last segment, so that description fully determines the word before the caret |
| Text.SearchWhitespace | shared/chat/conversation/input/mention-handlers.hoc.js:204 | `search(/\s/)` gives -1 exactly when there is no whitespace; otherwise it gives the index of the first whitespace character, with none before it |
| Text.LeadingWord | shared/chat/conversation/input/mention-handlers.hoc.js:203-207 | the part after the caret is the longest whitespace-free prefix: all of it, or up to the first whitespace character |
| Widget.WordAtCursor | shared/chat/conversation/input/mention-handlers.hoc.js:195-214 | the result is "" when the ref is absent, the text is empty or a range is selected. Without the forward part, it is the last space-free segment before the caret: no `' '` and length at most `selectionStart`. With it, the result is that segment followed by the leading whitespace-free part after the caret |
| Widget.ReplaceWordAtCursor | shared/chat/conversation/input/mention-handlers.hoc.js:216-226 | exactly one `ReplaceText(newWord, selectionStart - |word|, selectionStart)` iff the ref is set, the caret is collapsed and the word is non-empty, and none otherwise. The start is never negative, and for a well-formed widget the replaced span is the word |
| MentionHandlers.WordUpdates | shared/chat/conversation/input/mention-handlers.hoc.js:178-192 | the setter calls scheduled for the word before the caret, in source order: opening a popup only when it is closed, and closing only the popups that are open |
| MentionHandlers.WordUpdatesApplied | shared/chat/conversation/input/mention-handlers.hoc.js:178-192 | those scheduled updates, applied in order, open the `@` or `#` popup with the rest of the word as its filter, or clear both filters and close both popups for any other word |
| MentionHandlers.UpdateFromWord | shared/chat/conversation/input/mention-handlers.hoc.js:178-192 | an `@` word opens the mention popup with the rest as its filter and leaves the channel popup alone; a `#` word does the same for the channel popup; any other word clears both filters and closes both popups; counters unchanged |
| MentionHandlers.PopupKeyDown | shared/chat/conversation/input/mention-handlers.hoc.js:116-143 | with a popup open: Tab with a filter raises only the pick counter; Tab without one raises only up (Shift) or down; the vertical arrows raise their counter; Escape/ArrowLeft/ArrowRight close both popups; the default is prevented except on dismissal |
| MentionHandlers.SigilUpdates | shared/chat/conversation/input/mention-handlers.hoc.js:146-150 | key-down on `@` schedules opening the mention popup, on `#` the channel popup, and on any other key nothing |
| MentionHandlers.MentionBackUpdates | shared/chat/conversation/input/mention-handlers.hoc.js:152-158 | Backspace with the mention popup open and `@` last in `props.text` schedules clearing the mention filter and then closing the popup; otherwise nothing |
| MentionHandlers.ChannelBackUpdates | shared/chat/conversation/input/mention-handlers.hoc.js:159-165 | the same for the channel popup and `#` |
| MentionHandlers.BackspaceResult | shared/chat/conversation/input/mention-handlers.hoc.js:152-165 | Backspace closes the mention popup and clears its filter iff it was open and the text ends in `@`; the same for the channel popup and `#`; each popup is otherwise left as it was, and the counters are unchanged |
| MentionHandlers.BackspaceUpdatesApplied | shared/chat/conversation/input/mention-handlers.hoc.js:152-165 | the updates the two Backspace checks schedule, applied in order, give exactly that result |
| MentionHandlers.TriggerUpdatesApplied | shared/chat/conversation/input/mention-handlers.hoc.js:145-165 | after the popup keys, `@` and `#` only open their popup, Backspace gives the result above, and any other key schedules nothing; counters unchanged |
| MentionHandlers.OnKeyDown | shared/chat/conversation/input/mention-handlers.hoc.js:114-166 | the popup keys behave as above and nothing else changes. `@`/`#` open their popup. Backspace closes a popup and clears its filter iff that popup was open and the host text's last character is its trigger. Any other key changes nothing. No counter ever decreases |
| MentionHandlers.OnKeyUp | shared/chat/conversation/input/mention-handlers.hoc.js:168-193 | with a popup open, ArrowUp/ArrowDown/Shift/Tab change nothing; other keys with a popup open, and Backspace with none, feed the word before the caret to the popup state; any other key changes nothing; no effects |
| MentionHandlers.OnChangeText | shared/chat/conversation/input/mention-handlers.hoc.js:245-260 | hands the new text to the host and feeds the word before the caret to the popup state |
| MentionHandlers.OnEnterKeyDown | shared/chat/conversation/input/mention-handlers.hoc.js:228-243 | always prevents the default first. With a popup open it raises only the pick counter and posts nothing. Otherwise, while loading, it only logs. Otherwise a non-empty text is posted once and then cleared, and an empty one does nothing |
| MentionHandlers.PostFallback | shared/chat/conversation/input/mention-handlers.hoc.js:72-77 | a pick that is not a real entry posts the host's text and clears it, once, when that text is non-empty; otherwise nothing |
| MentionHandlers.InsertMention | shared/chat/conversation/input/mention-handlers.hoc.js:66-78 | replaces the word with `"@u "` and closes the mention popup only; the post-and-clear fallback follows the replacement |
| MentionHandlers.SwitchMention | shared/chat/conversation/input/mention-handlers.hoc.js:80-82 | replaces the word with `"@u"` and leaves the state unchanged |
| MentionHandlers.InsertChannelMention | shared/chat/conversation/input/mention-handlers.hoc.js:84-96 | replaces the word with `"#c "` and closes the channel popup only; the post-and-clear fallback follows the replacement |
| MentionHandlers.SwitchChannelMention | shared/chat/conversation/input/mention-handlers.hoc.js:98-100 | replaces the word with `"#c"` and leaves the state unchanged |
| MentionHandlers.SetMentionPopup | shared/chat/conversation/input/mention-handlers.hoc.js:45-47 | sets the mention popup flag and changes nothing else |
| MentionHandlers.SetChannelMentionPopup | shared/chat/conversation/input/mention-handlers.hoc.js:49-51 | sets the channel popup flag and changes nothing else |
| MentionProperties.WordAfterReplace | shared/chat/conversation/input/mention-handlers.hoc.js:216-226 | after the host replaces the word, the word before the new caret is the inserted literal when it has no space, and empty when the literal ends in a space |
| MentionProperties.SwitchMentionKeepsFilter | shared/chat/conversation/input/mention-handlers.hoc.js:80-82 | after `switchMention(u)` (u without spaces) the word before the caret is `"@u"`, so the next text change keeps the mention popup open filtering on `u` |
| MentionProperties.SwitchChannelMentionKeepsFilter | shared/chat/conversation/input/mention-handlers.hoc.js:98-100 | the same for `switchChannelMention(c)` and the channel popup |
| MentionProperties.InsertMentionEndsMention | shared/chat/conversation/input/mention-handlers.hoc.js:66-68 | `insertMention(u)` turns the text into prefix + `"@u "` + rest; the word before the caret is then empty, and the next text change closes both popups |
| MentionProperties.InsertChannelMentionEndsMention | shared/chat/conversation/input/mention-handlers.hoc.js:84-86 | `insertChannelMention(c)` turns the text into prefix + `"#c "` + rest; the word before the caret is then empty, and the next text change closes both popups |
| MentionProperties.TypingMentionOpensPopup | shared/chat/conversation/input/mention-handlers.hoc.js:180-182 | once the text before the caret is a prefix ending in a space (or empty) followed by `@name`, with no space in `name`, a text change opens the mention popup filtering on `name` and changes nothing else |
| MentionProperties.TypingChannelMentionOpensPopup | shared/chat/conversation/input/mention-handlers.hoc.js:183-185 | the same for `#name` and the channel popup |
| MentionProperties.TriggerInsideWordIgnored | shared/chat/conversation/input/mention-handlers.hoc.js:198-201 | `foo@bar` with the caret at the end opens no popup: the word before the caret starts with `f`, so both filters are cleared and both popups closed |
| MentionProperties.InsertMentionExample | shared/chat/conversation/input/mention-handlers.hoc.js:66-68 | picking `alice` in `"hi @al"` emits `ReplaceText("@alice ", 3, 6)`, gives `"hi @alice "` and closes the mention popup |
| MentionProperties.Handle | shared/chat/conversation/input/mention-handlers.hoc.js:262-279 | no handler wired into the display component lowers a counter; only key-down and Enter may raise one |
| MentionProperties.RunNeverLowersCounters | shared/chat/conversation/input/mention-handlers.hoc.js:102-112 | over any sequence of events, no counter ever decreases |
| MentionProperties.EnterWithPopupNeverPosts | shared/chat/conversation/input/mention-handlers.hoc.js:231-234 | Enter with a popup open never posts a message |
| Favorite.InitialState | shared/reducers/favorite.js:5-34 | the initial store: empty private/public lists with their `isPublic` flags, zero badges, nothing installing or loading, no statuses, private tab shown with both ignored sections closed |
| Favorite.StripMeta | shared/reducers/favorite.js:49-50 | a folder with the created name and meta `'new'` gets meta null; every other folder is returned unchanged |
| Favorite.StripMetaAll | shared/reducers/favorite.js:59 | the mapped list has the same length and the same folders in the same order; only entries with the created name and meta `'new'` lose their meta |
| Favorite.MarkCreated | shared/reducers/favorite.js:44-75 | only the list chosen by `isPublic` is rewritten, by clearing its markers; the other list, the badges and all other fields are unchanged |
| Favorite.FilterByName | shared/reducers/favorite.js:140 | the filter keeps only results with the name, all taken from the input, and is non-empty iff some result has the name |
| Favorite.ReduceFolders | shared/reducers/favorite.js:44-113 | the four error-guarded actions with an error, and every other action, leave the state alone. `markTLFCreated` rewrites one list. `favoriteListed` replaces the folder state. Switching tabs sets only `showingPrivate`. Toggling flips exactly the flag `isPrivate` picks |
| Favorite.ReduceInstall | shared/reducers/favorite.js:115-177 | each FUSE/KBFS action sets only its own fields (installing, loading, status, kext flag, KBFS install record); every other action leaves the state alone |
| Favorite.KextPermissionFailed | shared/reducers/favorite.js:139-142 | the kext-permission flag: some component result is named `'fuse'` and the first such one has the kext-permission exit code (characterised by `FavoriteProperties.InstallFuseResultFlag`) |
| Favorite.Reduce | shared/reducers/favorite.js:36-180 | `resetStore` gives the initial state. Unknown actions, and the four error-guarded actions carrying an error, return the state unchanged. Folder and view actions change nothing but the folder state and the view state; FUSE/KBFS actions change neither |
| Favorite.ReduceOrInit | shared/reducers/favorite.js:36-39 | an absent state is replaced by the initial state before any action is reduced; a present one is reduced as is |
| FavoriteProperties.ToggleIgnoredTwice | shared/reducers/favorite.js:98-113 | toggling the same section twice restores the state |
| FavoriteProperties.StripMetaAllIdempotent | shared/reducers/favorite.js:49-50 | clearing the `'new'` markers a second time changes nothing |
| FavoriteProperties.MarkTLFCreatedIdempotent | shared/reducers/favorite.js:44-75 | marking the same folder created twice gives the same state as marking it once |
| FavoriteProperties.MarkTLFCreatedKeepsLengths | shared/reducers/favorite.js:59-70 | marking a folder created keeps the length of both folder lists |
| FavoriteProperties.FilterByNameHead | shared/reducers/favorite.js:140-142 | the first filtered result is the first result with the name |
| FavoriteProperties.InstallFuseResultFlag | shared/reducers/favorite.js:138-146 | the kext-permission flag is set iff the first component result named `'fuse'` has the kext-permission exit code; nothing else changes |

## Left out

- The `isMobile` branch of `key()` (mention-handlers.hoc.js:22-25): the key arrives already normalised as a string, because platform detection is outside this code.
- `render()`, `inputSetRef` and the forwarding of key-down to `props._onKeyDown`: these are UI wiring with no logic of their own. The wiring of handlers is reflected only in `MentionProperties.Handle`.
- `logger.info`, `onPostMessage`, `setText` and the widget's `replaceText`: they appear only as emitted effects. `ApplyReplace` states the widget behaviour the round-trip lemmas assume: the span is replaced and the caret follows the literal.
- React's batching and re-render scheduling: each handler is atomic over the pre-event state. Its updates are applied in order afterwards.
- The widget's `selections()` is taken to be present whenever the ref is set. A ref that returns no selection object is not modelled.
- Strings are indexed by Unicode scalar value, while JavaScript indexes UTF-16 code units. The two agree on text in the Basic Multilingual Plane.
- The counters are unbounded naturals. JavaScript number precision beyond 2^53 is not modelled.
- `ExitCodeFuseKextPermissionError` is an opaque integer constant. Its value lives in a constants file that is not part of this model.
- The payload shapes of `fuseStatus`, `kbfsStatus` and the install results are left out, except `componentResults[].name/exitCode`. They are uninterpreted values or one-field records.
- Folder fields other than `sortName` and `meta` are one opaque `details` value.
- `shared/search/index.js` is connect/render wiring with no logic, so it is not part of this model.
