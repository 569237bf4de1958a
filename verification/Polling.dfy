/** The periodic resynchronisation: on every tick all SecretSyncs are listed and sent to the
    controller's channel, until the context is cancelled. */
module Polling {
  import opened Text

  // What the next select of the loop finds: a tick with the answer of the list call, room for one
  // item in the channel, or the cancelled context.
  datatype Choice<T> = Tick(items: Option<seq<T>>) | Ready | Done

  // Waiting for a tick, sending the rest of a list, or ended.
  datatype Phase<T> = Waiting | Sending(items: seq<T>, next: nat) | Ended

  // `passes` are the lists that were sent to their end.
  datatype State<T> = State(phase: Phase<T>, sent: seq<T>, passes: seq<seq<T>>, closes: nat)

  function Settle<T>(s: State<T>): State<T> {
    match s.phase
    case Sending(items, next) =>
      if next >= |items| then s.(phase := Waiting, passes := s.passes + [items]) else s
    case _ => s
  }

  // A choice that the current select does not offer changes nothing.
  function Next<T>(s: State<T>, c: Choice<T>): State<T> {
    match (s.phase, c)
    case (Waiting, Tick(items)) =>
      if items.None? then s else Settle(s.(phase := Sending(items.value, 0)))
    case (Sending(items, next), Ready) =>
      if next < |items| then Settle(s.(phase := Sending(items, next + 1), sent := s.sent + [items[next]])) else s
    case (Waiting, Done) => s.(phase := Ended, closes := s.closes + 1)
    case (Sending(_, _), Done) => s.(phase := Ended, closes := s.closes + 1)
    case _ => s
  }

  // The channel is closed at once if the caches never synchronise.
  function Start<T>(synced: bool): State<T> {
    if synced then State(Waiting, [], [], 0) else State(Ended, [], [], 1)
  }

  function Run<T>(synced: bool, choices: seq<Choice<T>>): State<T> {
    if |choices| == 0 then Start(synced)
    else Next(Run(synced, choices[..|choices| - 1]), choices[|choices| - 1])
  }

  function Concat<T>(lists: seq<seq<T>>): seq<T> {
    if |lists| == 0 then [] else Concat(lists[..|lists| - 1]) + lists[|lists| - 1]
  }

  // The lists after one more choice.
  function ListedBy<T>(s: State<T>, lists: seq<seq<T>>, c: Choice<T>): seq<seq<T>> {
    match (s.phase, c)
    case (Waiting, Tick(Some(items))) => lists + [items]
    case _ => lists
  }

  // The lists of the ticks that the loop took, oldest first.
  function Listed<T>(synced: bool, choices: seq<Choice<T>>): seq<seq<T>> {
    if |choices| == 0 then []
    else
      var n := |choices| - 1;
      var lists := Listed(synced, choices[..n]);
      ListedBy(Run(synced, choices[..n]), lists, choices[n])
  }

  // `tail` is the part of the last list that has been sent so far.
  ghost predicate ExactPasses<T>(s: State<T>, lists: seq<seq<T>>, tail: seq<T>) {
    && s.sent == Concat(s.passes) + tail
    && (lists == s.passes ==> tail == [])
    && (lists != s.passes ==> |lists| == |s.passes| + 1 && lists[..|s.passes|] == s.passes && tail <= lists[|s.passes|])
    && (s.phase.Waiting? ==> lists == s.passes)
    && (s.phase.Sending? ==>
          && lists == s.passes + [s.phase.items]
          && s.phase.next < |s.phase.items| && tail == s.phase.items[..s.phase.next])
    && s.closes == if s.phase.Ended? then 1 else 0
  }

  lemma LastOf<T>(lists: seq<seq<T>>, items: seq<T>)
    ensures (lists + [items])[..|lists|] == lists && (lists + [items])[|lists|] == items
  {
  }

  lemma ConcatMore<T>(lists: seq<seq<T>>, items: seq<T>)
    ensures Concat(lists + [items]) == Concat(lists) + items
  {
    LastOf(lists, items);
  }

  lemma TakeMore<T>(items: seq<T>, n: nat)
    requires n < |items|
    ensures items[..n + 1] == items[..n] + [items[n]]
    ensures n + 1 == |items| ==> items[..n] + [items[n]] == items
  {
  }

  lemma Append<T>(s: seq<T>, tail: seq<T>, item: T)
    ensures s + tail + [item] == s + (tail + [item]) && s + [] == s
  {
  }

  lemma TickKeepsPasses<T>(s: State<T>, lists: seq<seq<T>>, items: seq<T>)
    requires s.phase.Waiting? && ExactPasses(s, lists, [])
    ensures ExactPasses(Settle(s.(phase := Sending(items, 0))), lists + [items], [])
  {
    LastOf(lists, items);
    if |items| == 0 {
      ConcatMore(s.passes, items);
    }
  }

  lemma SendKeepsPasses<T>(s: State<T>, lists: seq<seq<T>>, tail: seq<T>)
    requires s.phase.Sending? && ExactPasses(s, lists, tail)
    ensures
      var s' := Next(s, Ready);
      ExactPasses(s', lists, if s'.phase.Waiting? then [] else tail + [s.phase.items[s.phase.next]])
  {
    var items, next := s.phase.items, s.phase.next;
    TakeMore(items, next);
    Append(Concat(s.passes), tail, items[next]);
    if next + 1 == |items| {
      ConcatMore(s.passes, items);
    } else {
      LastOf(s.passes, items);
    }
  }

  lemma EndKeepsPasses<T>(s: State<T>, lists: seq<seq<T>>, tail: seq<T>)
    requires ExactPasses(s, lists, tail)
    ensures ExactPasses(Next(s, Done), lists, tail)
  {
    if s.phase.Sending? {
      LastOf(s.passes, s.phase.items);
    }
  }

  lemma StepKeepsPasses<T>(s: State<T>, lists: seq<seq<T>>, tail: seq<T>, c: Choice<T>) returns (tail': seq<T>)
    requires ExactPasses(s, lists, tail)
    ensures ExactPasses(Next(s, c), ListedBy(s, lists, c), tail')
  {
    tail' := tail;
    match (s.phase, c)
    case (Waiting, Tick(Some(items))) =>
      TickKeepsPasses(s, lists, items);
      tail' := [];
    case (Sending(_, _), Ready) =>
      SendKeepsPasses(s, lists, tail);
      tail' := if Next(s, c).phase.Waiting? then [] else tail + [s.phase.items[s.phase.next]];
    case (_, Done) => EndKeepsPasses(s, lists, tail);
    case _ =>
  }

  // At every moment of every run: what was sent is the concatenation of the complete lists of the
  // passes so far and a prefix of the one in progress, each item once and in order; the channel is
  // closed exactly once, at the end.
  lemma {:induction false} SendsExactPasses<T>(synced: bool, choices: seq<Choice<T>>)
    ensures exists tail :: ExactPasses(Run(synced, choices), Listed(synced, choices), tail)
  {
    if |choices| == 0 {
      assert ExactPasses(Run(synced, choices), Listed(synced, choices), []);
    } else {
      var n := |choices| - 1;
      var s, lists := Run(synced, choices[..n]), Listed(synced, choices[..n]);
      SendsExactPasses(synced, choices[..n]);
      var tail :| ExactPasses(s, lists, tail);
      var tail' := StepKeepsPasses(s, lists, tail, choices[n]);
      assert ExactPasses(Run(synced, choices), Listed(synced, choices), tail');
    }
  }

  // Nothing is sent and nothing is closed again once the loop has ended.
  lemma {:induction false} EndIsFinal<T>(synced: bool, choices: seq<Choice<T>>, k: nat)
    requires k <= |choices| && Run(synced, choices[..k]).phase.Ended?
    ensures Run(synced, choices) == Run(synced, choices[..k])
  {
    if k < |choices| {
      var n := |choices| - 1;
      assert choices[..n][..k] == choices[..k];
      EndIsFinal(synced, choices[..n], k);
    } else {
      assert choices[..k] == choices;
    }
  }

  /******* Progress *******/

  // Once the caches have synchronised, the loop ends when the context is cancelled and not before.
  lemma {:induction false} EndsExactlyWhenCancelled<T>(choices: seq<Choice<T>>)
    ensures Run(true, choices).phase.Ended? <==> Done in choices
    ensures Run(true, choices).closes == if Done in choices then 1 else 0
  {
    if |choices| > 0 {
      var n := |choices| - 1;
      EndsExactlyWhenCancelled(choices[..n]);
      assert choices == choices[..n] + [choices[n]];
    }
  }

  // If they never do, nothing is sent and the channel is closed at once.
  lemma {:induction false} UnsyncedSendsNothing<T>(choices: seq<Choice<T>>)
    ensures Run(false, choices).sent == [] && Run(false, choices).closes == 1 && Run(false, choices).phase.Ended?
  {
    if |choices| > 0 {
      UnsyncedSendsNothing(choices[..|choices| - 1]);
    }
  }

  function Readies<T>(n: nat): (choices: seq<Choice<T>>)
    ensures |choices| == n && forall i :: 0 <= i < n ==> choices[i] == Ready
  {
    if n == 0 then [] else Readies(n - 1) + [Ready]
  }

  lemma RunMore<T>(synced: bool, choices: seq<Choice<T>>, c: Choice<T>)
    ensures Run(synced, choices + [c]) == Next(Run(synced, choices), c)
  {
    assert (choices + [c])[..|choices|] == choices;
  }

  // A waiting loop that is given a list and room for `n` of its items has sent these.
  lemma {:induction false} SendsWhatFits<T>(synced: bool, choices: seq<Choice<T>>, items: seq<T>, n: nat)
    requires Run(synced, choices).phase.Waiting? && n <= |items|
    ensures
      var s := Run(synced, choices + [Tick(Some(items))] + Readies(n));
      && s.sent == Run(synced, choices).sent + items[..n]
      && s.phase == if n == |items| then Waiting else Sending(items, n)
  {
    var ticked := choices + [Tick(Some(items))];
    if n == 0 {
      RunMore(synced, choices, Tick(Some(items)));
      assert ticked + Readies(0) == ticked;
      assert Run(synced, choices).sent + items[..0] == Run(synced, choices).sent;
    } else {
      SendsWhatFits(synced, choices, items, n - 1);
      OneMoreReady(synced, ticked, n - 1);
      SendOne(Run(synced, ticked + Readies(n - 1)), Run(synced, choices).sent, items, n - 1);
    }
  }

  lemma OneMoreReady<T>(synced: bool, choices: seq<Choice<T>>, n: nat)
    ensures Run(synced, choices + Readies(n + 1)) == Next(Run(synced, choices + Readies(n)), Ready)
  {
    RunMore(synced, choices + Readies(n), Ready);
    assert choices + Readies(n + 1) == choices + Readies(n) + [Ready];
  }

  lemma SendOne<T>(s: State<T>, before: seq<T>, items: seq<T>, n: nat)
    requires n < |items| && s.phase == Sending(items, n) && s.sent == before + items[..n]
    ensures
      var s' := Next(s, Ready);
      s'.sent == before + items[..n + 1] && s'.phase == if n + 1 == |items| then Waiting else Sending(items, n + 1)
  {
    TakeMore(items, n);
    Append(before, items[..n], items[n]);
  }

  // So a tick whose list is answered, and room for its items, sends the whole list and waits again; a
  // tick whose list call fails changes nothing.
  lemma TickSendsTheList<T>(synced: bool, choices: seq<Choice<T>>, items: seq<T>)
    requires Run(synced, choices).phase.Waiting?
    ensures
      var s := Run(synced, choices + [Tick(Some(items))] + Readies(|items|));
      s.sent == Run(synced, choices).sent + items && s.phase.Waiting?
    ensures Run(synced, choices + [Tick(None)]) == Run(synced, choices)
  {
    SendsWhatFits(synced, choices, items, |items|);
    assert items[..|items|] == items;
    RunMore(synced, choices, Tick(None));
  }

  /******* The loop *******/

  class Channel<T> {
    var sent: seq<T>
    var closes: nat

    constructor ()
      ensures sent == [] && closes == 0
    {
      sent, closes := [], 0;
    }
  }

  lemma RunStep<T>(synced: bool, choices: seq<Choice<T>>, k: nat)
    requires k < |choices|
    ensures Run(synced, choices[..k + 1]) == Next(Run(synced, choices[..k]), choices[k])
  {
    assert choices[..k + 1][..k] == choices[..k];
  }

  ghost predicate Reached<T>(channel: Channel<T>, s: State<T>)
    reads channel
  {
    channel.sent == s.sent && channel.closes == s.closes
  }

  // Waits until the channel takes `items[idx]` or the context is cancelled. Returns how many choices
  // were used, and whether the item was sent.
  method SendItem<T>(channel: Channel<T>, ghost synced: bool, items: seq<T>, idx: nat, choices: seq<Choice<T>>, start: nat)
    returns (k: nat, sent: bool)
    requires start <= |choices| && idx < |items|
    requires Reached(channel, Run(synced, choices[..start])) && Run(synced, choices[..start]).phase == Sending(items, idx)
    modifies channel
    ensures start <= k <= |choices| && Reached(channel, Run(synced, choices[..k]))
    ensures sent ==> Run(synced, choices[..k]).phase == if idx + 1 == |items| then Waiting else Sending(items, idx + 1)
    ensures !sent ==> k == |choices| || Run(synced, choices[..k]).phase.Ended?
  {
    k := start;
    while k < |choices| && choices[k].Tick?
      invariant start <= k <= |choices| && Reached(channel, Run(synced, choices[..k]))
      invariant Run(synced, choices[..k]).phase == Sending(items, idx)
    {
      RunStep(synced, choices, k);
      k := k + 1;
    }
    if k == |choices| {
      return k, false;
    }
    RunStep(synced, choices, k);
    if choices[k].Done? {
      channel.closes := channel.closes + 1;
      return k + 1, false;
    }
    channel.sent := channel.sent + [items[idx]];
    return k + 1, true;
  }

  // Sends one list. Returns how many choices were used, and whether the loop goes on.
  method SendItems<T>(channel: Channel<T>, ghost synced: bool, items: seq<T>, choices: seq<Choice<T>>, start: nat)
    returns (k: nat, goOn: bool)
    requires start <= |choices| && Reached(channel, Run(synced, choices[..start]))
    requires Run(synced, choices[..start]).phase == if |items| == 0 then Waiting else Sending(items, 0)
    modifies channel
    ensures start <= k <= |choices| && Reached(channel, Run(synced, choices[..k]))
    ensures goOn ==> Run(synced, choices[..k]).phase.Waiting?
    ensures !goOn ==> k == |choices| || Run(synced, choices[..k]).phase.Ended?
  {
    k := start;
    for idx := 0 to |items|
      invariant start <= k <= |choices| && Reached(channel, Run(synced, choices[..k]))
      invariant Run(synced, choices[..k]).phase == if idx == |items| then Waiting else Sending(items, idx)
    {
      var sent;
      k, sent := SendItem(channel, synced, items, idx, choices, k);
      if !sent {
        return k, false;
      }
    }
    goOn := true;
  }

  // The polling function over everything its selects find until the run is looked at.
  method Poll<T>(channel: Channel<T>, synced: bool, choices: seq<Choice<T>>)
    requires channel.sent == [] && channel.closes == 0
    modifies channel
    ensures Reached(channel, Run(synced, choices))
  {
    assert choices[..0] == [];
    if !synced {
      channel.closes := 1;
      EndIsFinal(synced, choices, 0);
      return;
    }
    var k := 0;
    while k < |choices|
      invariant k <= |choices| && Reached(channel, Run(synced, choices[..k]))
      invariant Run(synced, choices[..k]).phase.Waiting?
      decreases |choices| - k
    {
      RunStep(synced, choices, k);
      match choices[k] {
        case Ready => k := k + 1;
        case Tick(None) => k := k + 1;
        case Done =>
          channel.closes := channel.closes + 1;
          EndIsFinal(synced, choices, k + 1);
          return;
        case Tick(Some(items)) =>
          var goOn;
          k, goOn := SendItems(channel, synced, items, choices, k + 1);
          if !goOn {
            EndOrLast(synced, choices, k);
            return;
          }
      }
    }
    assert choices[..|choices|] == choices;
  }

  lemma EndOrLast<T>(synced: bool, choices: seq<Choice<T>>, k: nat)
    requires k <= |choices|
    requires k == |choices| || Run(synced, choices[..k]).phase.Ended?
    ensures Run(synced, choices) == Run(synced, choices[..k])
  {
    if k == |choices| {
      assert choices[..k] == choices;
    } else {
      EndIsFinal(synced, choices, k);
    }
  }
}
