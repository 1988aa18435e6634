/**
 * The mention controller's component state and the deferred state updates its
 * handlers schedule. A handler reads the state as it was before the event and
 * schedules a list of updates; the updates are then applied in order.
 */
module MentionSession {

  /** The seven fields of the component state. */
  datatype State = State(
    upArrowCounter: nat,
    downArrowCounter: nat,
    pickSelectedCounter: nat,
    mentionFilter: string,
    channelMentionFilter: string,
    mentionPopupOpen: bool,
    channelMentionPopupOpen: bool)
  {
    predicate PopupOpen() {
      mentionPopupOpen || channelMentionPopupOpen
    }

    predicate HasFilter() {
      |mentionFilter| > 0 || |channelMentionFilter| > 0
    }
  }

  /** The state a freshly constructed component starts in. */
  function Initial(): (s: State)
    ensures s.upArrowCounter == 0 && s.downArrowCounter == 0 && s.pickSelectedCounter == 0
    ensures s.mentionFilter == "" && s.channelMentionFilter == ""
    ensures !s.PopupOpen()
  {
    State(0, 0, 0, "", "", false, false)
  }

  /**
   * One scheduled state update: the four setters merge one field, the three
   * counter triggers increment one counter relative to the pending state.
   */
  datatype Update =
    | SetMentionPopupOpen(open: bool)
    | SetChannelMentionPopupOpen(open: bool)
    | SetMentionFilter(filter: string)
    | SetChannelMentionFilter(filter: string)
    | TriggerUpArrow
    | TriggerDownArrow
    | TriggerPickSelected

  /** Counters of `t` are at least those of `s`. */
  predicate CountersNotBelow(s: State, t: State) {
    && t.upArrowCounter >= s.upArrowCounter
    && t.downArrowCounter >= s.downArrowCounter
    && t.pickSelectedCounter >= s.pickSelectedCounter
  }

  /** Same popups and filters: only the counters may differ. */
  predicate SamePopups(s: State, t: State) {
    && t.mentionFilter == s.mentionFilter
    && t.channelMentionFilter == s.channelMentionFilter
    && t.mentionPopupOpen == s.mentionPopupOpen
    && t.channelMentionPopupOpen == s.channelMentionPopupOpen
  }

  /** Same counters: only the popups and filters may differ. */
  predicate SameCounters(s: State, t: State) {
    && t.upArrowCounter == s.upArrowCounter
    && t.downArrowCounter == s.downArrowCounter
    && t.pickSelectedCounter == s.pickSelectedCounter
  }

  /** Applies one scheduled update. */
  function Apply(s: State, u: Update): (t: State)
    ensures u.TriggerUpArrow? ==> t == s.(upArrowCounter := s.upArrowCounter + 1)
    ensures u.TriggerDownArrow? ==> t == s.(downArrowCounter := s.downArrowCounter + 1)
    ensures u.TriggerPickSelected? ==> t == s.(pickSelectedCounter := s.pickSelectedCounter + 1)
    ensures !u.TriggerUpArrow? && !u.TriggerDownArrow? && !u.TriggerPickSelected? ==> SameCounters(s, t)
    ensures u.SetMentionPopupOpen? ==> t == s.(mentionPopupOpen := u.open)
    ensures u.SetChannelMentionPopupOpen? ==> t == s.(channelMentionPopupOpen := u.open)
    ensures u.SetMentionFilter? ==> t == s.(mentionFilter := u.filter)
    ensures u.SetChannelMentionFilter? ==> t == s.(channelMentionFilter := u.filter)
  {
    match u
    case SetMentionPopupOpen(open) => s.(mentionPopupOpen := open)
    case SetChannelMentionPopupOpen(open) => s.(channelMentionPopupOpen := open)
    case SetMentionFilter(filter) => s.(mentionFilter := filter)
    case SetChannelMentionFilter(filter) => s.(channelMentionFilter := filter)
    case TriggerUpArrow => s.(upArrowCounter := s.upArrowCounter + 1)
    case TriggerDownArrow => s.(downArrowCounter := s.downArrowCounter + 1)
    case TriggerPickSelected => s.(pickSelectedCounter := s.pickSelectedCounter + 1)
  }

  /**
   * Applies scheduled updates in order. Each counter ends up raised by exactly
   * the number of its triggers in `us`, so no counter ever decreases.
   */
  function ApplyAll(s: State, us: seq<Update>): (t: State)
    ensures t.upArrowCounter == s.upArrowCounter + multiset(us)[TriggerUpArrow]
    ensures t.downArrowCounter == s.downArrowCounter + multiset(us)[TriggerDownArrow]
    ensures t.pickSelectedCounter == s.pickSelectedCounter + multiset(us)[TriggerPickSelected]
    ensures CountersNotBelow(s, t)
    decreases |us|
  {
    if |us| == 0 then s
    else
      assert us == [us[0]] + us[1..];
      ApplyAll(Apply(s, us[0]), us[1..])
  }

  lemma ApplyAllEmpty(s: State)
    ensures ApplyAll(s, []) == s
  {
  }

  lemma ApplyAllSingle(s: State, u: Update)
    ensures ApplyAll(s, [u]) == Apply(s, u)
  {
    assert [u][1..] == [];
  }

  /** Applying `a + b` is applying `a`, then `b`. */
  lemma {:induction false} ApplyAllAppend(s: State, a: seq<Update>, b: seq<Update>)
    ensures ApplyAll(s, a + b) == ApplyAll(ApplyAll(s, a), b)
    decreases |a|
  {
    if |a| == 0 {
      assert a + b == b;
    } else {
      assert (a + b)[0] == a[0];
      assert (a + b)[1..] == a[1..] + b;
      ApplyAllAppend(Apply(s, a[0]), a[1..], b);
    }
  }

  lemma ApplyAllPair(s: State, u: Update, v: Update)
    ensures ApplyAll(s, [u, v]) == Apply(Apply(s, u), v)
  {
    assert [u, v] == [u] + [v];
    ApplyAllAppend(s, [u], [v]);
    ApplyAllSingle(s, u);
    ApplyAllSingle(Apply(s, u), v);
  }
}
