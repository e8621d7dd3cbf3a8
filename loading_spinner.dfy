/** The loading spinner (components/LoadingSpinner.tsx): its cycle of messages. */
module LoadingSpinner {

  const LoadingMessages: seq<string> := [
    "Consulting the digital muses...",
    "Sketching out the big ideas...",
    "Generating visual aids...",
    "Connecting concepts with creativity...",
    "Brewing some fresh knowledge...",
    "Assembling insights into art...",
    "Polishing the explanation..."
  ]

  /** The message shown first. */
  const InitialMessage := LoadingMessages[0]

  /** `messages.indexOf(x)`: the first position holding `x`, or -1. */
  function IndexOf(messages: seq<string>, x: string): (i: int)
    ensures -1 <= i < |messages|
    ensures i == -1 <==> x !in messages
    ensures i >= 0 ==> messages[i] == x
  {
    IndexFrom(messages, x, 0)
  }

  /** `indexOf` finds the first occurrence: no earlier position holds `x`. */
  lemma IndexOfIsFirst(messages: seq<string>, x: string, j: nat)
    requires j < IndexOf(messages, x)
    ensures messages[j] != x
  {
  }

  /** The search behind `IndexOf`, from position `k` on. */
  function IndexFrom(messages: seq<string>, x: string, k: nat): (i: int)
    requires k <= |messages|
    ensures i == -1 || k <= i < |messages|
    ensures i == -1 <==> forall j :: k <= j < |messages| ==> messages[j] != x
    ensures i >= 0 ==> messages[i] == x
    ensures forall j :: k <= j < i ==> messages[j] != x
    decreases |messages| - k
  {
    if k == |messages| then -1
    else if messages[k] == x then k
    else IndexFrom(messages, x, k + 1)
  }

  /** No entry appears twice. */
  predicate Distinct(messages: seq<string>) {
    forall i, j :: 0 <= i < j < |messages| ==> messages[i] != messages[j]
  }

  /** Every entry is found by `indexOf` at its own position. */
  predicate SelfIndexed(messages: seq<string>) {
    forall i {:trigger IndexOf(messages, messages[i])} ::
      0 <= i < |messages| ==> IndexOf(messages, messages[i]) == i
  }

  /** In a list without repeats, `indexOf` finds every entry where it stands. */
  lemma DistinctIsSelfIndexed(messages: seq<string>)
    requires Distinct(messages)
    ensures SelfIndexed(messages)
  {
    forall i | 0 <= i < |messages|
      ensures IndexOf(messages, messages[i]) == i
    {
      var r := IndexOf(messages, messages[i]);
      assert messages[r] == messages[i];
    }
  }

  /** The updater, for any list of messages: the entry after `prev`'s first position, wrapping around. */
  function NextIn(messages: seq<string>, prev: string): (next: string)
    requires |messages| > 0
    ensures next in messages
    ensures prev !in messages ==> next == messages[0]
  {
    messages[(IndexOf(messages, prev) + 1) % |messages|]
  }

  /** In a list without repeats, each entry is followed by the next one and the last by the first. */
  lemma NextInAt(messages: seq<string>, i: nat)
    requires Distinct(messages) && i < |messages|
    ensures NextIn(messages, messages[i]) == messages[(i + 1) % |messages|]
  {
    assert IndexOf(messages, messages[i]) == i;
  }

  /** In a self-indexed list, an entry before the last is followed by its neighbour. */
  lemma NextInStep(messages: seq<string>, i: nat)
    requires SelfIndexed(messages) && i + 1 < |messages|
    ensures NextIn(messages, messages[i]) == messages[i + 1]
  {
    assert IndexOf(messages, messages[i]) == i;
    assert (i + 1) % |messages| == i + 1;
  }

  /** In a self-indexed list, the last entry is followed by the first. */
  lemma NextInLast(messages: seq<string>)
    requires SelfIndexed(messages) && |messages| > 0
    ensures NextIn(messages, messages[|messages| - 1]) == messages[0]
  {
    assert IndexOf(messages, messages[|messages| - 1]) == |messages| - 1;
    assert |messages| % |messages| == 0;
  }

  /** The entry after `n` updates starting from `m`. */
  function AdvanceIn(messages: seq<string>, m: string, n: nat): string
    requires |messages| > 0
    decreases n
  {
    if n == 0 then m else AdvanceIn(messages, NextIn(messages, m), n - 1)
  }

  /** One update is the updater. */
  lemma AdvanceInOne(messages: seq<string>, m: string)
    requires |messages| > 0
    ensures AdvanceIn(messages, m, 1) == NextIn(messages, m)
  {
  }

  /** Updates compose: `a` updates followed by `b` updates are `a + b` updates. */
  lemma {:induction false} AdvanceInAdd(messages: seq<string>, m: string, a: nat, b: nat)
    requires |messages| > 0
    ensures AdvanceIn(messages, AdvanceIn(messages, m, a), b) == AdvanceIn(messages, m, a + b)
    decreases a
  {
    if a > 0 {
      AdvanceInAdd(messages, NextIn(messages, m), a - 1, b);
    }
  }

  /** In a self-indexed list, `n` updates from entry `i` reach entry `i + n`, or the first entry
      exactly when they run past the last one. */
  lemma {:induction false} AdvanceInAt(messages: seq<string>, i: nat, n: nat)
    requires SelfIndexed(messages) && i < |messages| && i + n <= |messages|
    ensures AdvanceIn(messages, messages[i], n) ==
      if i + n == |messages| then messages[0] else messages[i + n]
    decreases n
  {
    if n > 0 {
      if i + 1 == |messages| {
        assert n == 1;
        NextInLast(messages);
        AdvanceInOne(messages, messages[i]);
      } else {
        NextInStep(messages, i);
        AdvanceInAt(messages, i + 1, n - 1);
      }
    }
  }

  /** Updates that pass through `via` after `a` steps continue from there. */
  lemma AdvanceInThrough(messages: seq<string>, m: string, a: nat, b: nat, via: string)
    requires |messages| > 0 && AdvanceIn(messages, m, a) == via
    ensures AdvanceIn(messages, m, a + b) == AdvanceIn(messages, via, b)
  {
    AdvanceInAdd(messages, m, a, b);
  }

  /** In a list without repeats, as many updates as there are entries come back to the start. */
  lemma AdvanceInFullCycle(messages: seq<string>, m: string)
    requires Distinct(messages) && m in messages
    ensures AdvanceIn(messages, m, |messages|) == m
  {
    DistinctIsSelfIndexed(messages);
    var i := IndexOf(messages, m);
    AdvanceInAt(messages, i, |messages| - i);
    if i > 0 {
      AdvanceInAt(messages, 0, i);
    }
    AdvanceInThrough(messages, m, |messages| - i, i, messages[0]);
  }

  /** No loading message appears twice. */
  lemma LoadingMessagesDistinct()
    ensures Distinct(LoadingMessages)
  {
  }

  /** The updater run on every tick. */
  function NextMessage(prev: string): (next: string)
    ensures next in LoadingMessages
  {
    NextIn(LoadingMessages, prev)
  }

  /** Each message is followed by the next one in the list; the last by the first. */
  lemma NextMessageAt(i: nat)
    requires i < |LoadingMessages|
    ensures NextMessage(LoadingMessages[i]) == LoadingMessages[(i + 1) % |LoadingMessages|]
  {
    LoadingMessagesDistinct();
    NextInAt(LoadingMessages, i);
  }

  /** A message not in the list (indexOf gives -1) is followed by the first one. */
  lemma NextOfUnknownIsFirst(prev: string)
    requires prev !in LoadingMessages
    ensures NextMessage(prev) == InitialMessage
  {
  }

  /** As many ticks as there are messages (seven) bring any listed message back. */
  lemma TicksThroughListReturn(m: string)
    requires m in LoadingMessages
    ensures AdvanceIn(LoadingMessages, m, |LoadingMessages|) == m
  {
    LoadingMessagesDistinct();
    AdvanceInFullCycle(LoadingMessages, m);
  }
}
