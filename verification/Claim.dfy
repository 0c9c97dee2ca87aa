/** The shipment service's claim-first middleware: an atomic set-if-absent decides who runs the
    handler, before it runs. Calls for the same and for different ids interleave in any order. */
module Claim {
  import opened Bytes
  import Runs

  type Id = string

  const NO_ID: Id := ""

  /** A call of the middleware: not yet past the claim, inside the handler, returned with success
      or with an error, or lost with its process. */
  datatype Phase = Entered | Running | Returned(ok: bool) | Crashed

  /** told remembers how the call's own TryClaim came back, once it has: without an error, or with
      one. */
  datatype Call = Call(id: Id, phase: Phase, told: Option<bool>)

  // ----- the middleware -----

  class ClaimStore {
    var keys: set<Id>

    /** SetNX: sets the key if it is absent and says whether it did, in one step. A failing call
        may still have set it. */
    method TryClaim(id: Id, works: bool, stored: bool) returns (claimed: bool, ok: bool)
      requires works ==> stored
      modifies this
      ensures ok == works && claimed == (works && id !in old(keys))
      ensures keys == if stored then old(keys) + {id} else old(keys)
    {
      claimed, ok := works && id !in keys, works;
      if stored {
        keys := keys + {id};
      }
    }
  }

  /** WithTryClaim around a handler that would return ok. */
  method WithTryClaim(store: ClaimStore, id: Id, works: bool, stored: bool, next: bool) returns (ran: bool, ok: bool)
    requires works ==> stored
    modifies store
    ensures id == "" ==> ran && ok == next && store.keys == old(store.keys)
    ensures id != "" && !works ==> !ran && !ok
    ensures id != "" && works && id in old(store.keys) ==> !ran && ok && store.keys == old(store.keys)
    ensures id != "" && works && id !in old(store.keys) ==> ran && ok == next && store.keys == old(store.keys) + {id}
    ensures ran == AfterClaim(id, old(store.keys), works).Running?
    ensures ok == if ran then next else AfterClaim(id, old(store.keys), works).ok
    ensures store.keys == if id != NO_ID && stored then old(store.keys) + {id} else old(store.keys)
  {
    if id == NO_ID {
      return true, next;
    }
    var claimed, claimOk := store.TryClaim(id, works, stored);
    if !claimOk {
      return false, false;
    }
    if !claimed {
      return false, true;
    }
    return true, next;
  }

  function AfterClaim(id: Id, keys: set<Id>, works: bool): Phase {
    if id == NO_ID then Running
    else if !works then Returned(false)
    else if id in keys then Returned(true)
    else Running
  }

  // ----- all calls together -----

  /** first is the call whose TryClaim first stored the key of an id; starts, done and expired
      count, for each id, the handler's starts and successes and the expiries of its key. */
  datatype State = State(keys: set<Id>, calls: map<nat, Call>, first: map<Id, nat>, starts: map<Id, nat>,
                         done: map<Id, nat>, expired: map<Id, nat>)

  datatype Step =
    | Enter(c: nat, id: Id)
    | TryClaim(c: nat, works: bool, stored: bool)
    | Return(c: nat, ok: bool)
    | Crash(c: nat)
    | Expire(id: Id)

  function Count(m: map<Id, nat>, id: Id): nat {
    if id in m then m[id] else 0
  }

  /** No key held, and the given calls under way. */
  function Initial(calls: map<nat, Call>): State {
    State({}, calls, map[], map[], map[], map[])
  }

  function Next(s: State, step: Step): State {
    match step
    case Enter(c, id) =>
      if c in s.calls then s else s.(calls := s.calls[c := Call(id, Entered, None)])
    case TryClaim(c, works, stored) =>
      if c !in s.calls || s.calls[c].phase != Entered then s
      else
        var id := s.calls[c].id;
        var phase := AfterClaim(id, s.keys, works);
        var stores := id != NO_ID && (works || stored);
        s.(keys := if stores then s.keys + {id} else s.keys,
           calls := s.calls[c := Call(id, phase, if id == NO_ID then None else Some(works))],
           first := if stores && id !in s.keys && id !in s.first then s.first[id := c] else s.first,
           starts := if phase == Running then s.starts[id := Count(s.starts, id) + 1] else s.starts)
    case Return(c, ok) =>
      if c !in s.calls || s.calls[c].phase != Running then s
      else
        var id := s.calls[c].id;
        s.(calls := s.calls[c := s.calls[c].(phase := Returned(ok))],
           done := if ok then s.done[id := Count(s.done, id) + 1] else s.done)
    case Crash(c) =>
      if c !in s.calls || s.calls[c].phase.Returned? then s
      else s.(calls := s.calls[c := s.calls[c].(phase := Crashed)])
    case Expire(id) =>
      if id in s.keys then s.(keys := s.keys - {id}, expired := s.expired[id := Count(s.expired, id) + 1]) else s
  }

  function Run(s: State, steps: seq<Step>): State {
    Runs.Run(Next, s, steps)
  }

  /** A start of the handler for id is paid for by its key, held or expired. */
  predicate ClaimedOnce(s: State, id: Id) {
    Count(s.starts, id) <= Count(s.expired, id) + if id in s.keys then 1 else 0
  }

  lemma StepClaimsOnce(s: State, step: Step, id: Id)
    requires id != NO_ID && ClaimedOnce(s, id)
    ensures ClaimedOnce(Next(s, step), id)
    ensures Count(Next(s, step).expired, id) <= Count(s.expired, id) + (if step == Expire(id) then 1 else 0)
  {
  }

  function Expiries(steps: seq<Step>, id: Id): nat {
    if steps == [] then 0 else (if steps[0] == Expire(id) then 1 else 0) + Expiries(steps[1..], id)
  }

  lemma {:induction false} RunClaimsOnce(s: State, steps: seq<Step>, id: Id)
    requires id != NO_ID && ClaimedOnce(s, id)
    ensures ClaimedOnce(Run(s, steps), id)
    ensures Count(Run(s, steps).expired, id) <= Count(s.expired, id) + Expiries(steps, id)
    decreases |steps|
  {
    if steps != [] {
      StepClaimsOnce(s, steps[0], id);
      RunClaimsOnce(Next(s, steps[0]), steps[1..], id);
    }
  }

  /** At most once: whatever the interleaving of calls, failures and crashes, the handler starts
      for an id at most once, and once more for every expiry of its key. */
  lemma AtMostOnce(calls: map<nat, Call>, steps: seq<Step>, id: Id)
    requires id != NO_ID
    ensures Count(Run(Initial(calls), steps).starts, id) <= 1 + Expiries(steps, id)
  {
    RunClaimsOnce(Initial(calls), steps, id);
  }

  /** While a key is held and no call is inside the handler, nothing starts or completes for its
      id, and a call whose claim works would return success. */
  lemma {:induction false} HeldKeyStartsNothing(s: State, steps: seq<Step>, id: Id)
    requires id != NO_ID && id in s.keys && Expiries(steps, id) == 0
    requires forall c :: c in s.calls && s.calls[c].id == id ==> s.calls[c].phase != Running
    ensures Count(Run(s, steps).starts, id) == Count(s.starts, id) && Count(Run(s, steps).done, id) == Count(s.done, id)
    ensures id in Run(s, steps).keys
    ensures forall c :: c in Run(s, steps).calls && Run(s, steps).calls[c].id == id
                        && Run(s, steps).calls[c].phase == Entered ==>
              AfterClaim(id, Run(s, steps).keys, true) == Returned(true)
    decreases |steps|
  {
    if steps != [] {
      HeldKeyStep(s, steps[0], id);
      hide Next;
      HeldKeyStartsNothing(Next(s, steps[0]), steps[1..], id);
      assert Run(s, steps) == Run(Next(s, steps[0]), steps[1..]);
    }
  }

  lemma HeldKeyStep(s: State, step: Step, id: Id)
    requires id != NO_ID && id in s.keys && step != Expire(id)
    requires forall c :: c in s.calls && s.calls[c].id == id ==> s.calls[c].phase != Running
    ensures var next := Next(s, step);
            && id in next.keys && Count(next.starts, id) == Count(s.starts, id) && Count(next.done, id) == Count(s.done, id)
            && forall c :: c in next.calls && next.calls[c].id == id ==> next.calls[c].phase != Running
  {
  }

  // ----- what becomes of an id -----

  /** The call that first stored the key of id was also told so, and so runs the handler. */
  predicate Won(s: State, id: Id) {
    id in s.first && s.first[id] in s.calls && s.calls[s.first[id]].told == Some(true)
  }

  /** Where a call can stand, by what it was told and whether it stored the key first. */
  predicate Placed(call: Call, isFirst: bool) {
    match call.told
    case None => call.phase == Entered || call.phase == Crashed
    case Some(false) => call.phase == Returned(false)
    case Some(true) => if isFirst then call.phase != Entered else call.phase == Returned(true)
  }

  ghost predicate Accounted(s: State, id: Id) {
    && (id in s.keys <==> id in s.first)
    && (id in s.first ==>
          s.first[id] in s.calls && s.calls[s.first[id]].id == id && s.calls[s.first[id]].told.Some?)
    && (forall c :: c in s.calls && s.calls[c].id == id ==>
          Placed(s.calls[c], id in s.first && s.first[id] == c) && (s.calls[c].told == Some(true) ==> id in s.first))
    && Count(s.starts, id) == (if Won(s, id) then 1 else 0)
    && Count(s.done, id) == (if Won(s, id) && s.calls[s.first[id]].phase == Returned(true) then 1 else 0)
  }

  lemma StepAccounts(s: State, step: Step, id: Id)
    requires id != NO_ID && Accounted(s, id) && step != Expire(id)
    ensures Accounted(Next(s, step), id)
  {
    if step.TryClaim? && step.c in s.calls && s.calls[step.c].phase == Entered {
      ClaimAccounts(s, step.c, step.works, step.stored, id);
    } else if step.Return? && step.c in s.calls && s.calls[step.c].phase == Running {
      ReturnAccounts(s, step.c, step.ok, id);
    } else {
      hide AfterClaim;
    }
  }

  lemma ReturnAccounts(s: State, c: nat, ok: bool, id: Id)
    requires id != NO_ID && Accounted(s, id) && c in s.calls && s.calls[c].phase == Running
    ensures Accounted(Next(s, Return(c, ok)), id)
  {
    assert s.calls[c].id == id ==> id in s.first && s.first[id] == c && Won(s, id);
  }

  lemma ClaimAccounts(s: State, c: nat, works: bool, stored: bool, id: Id)
    requires id != NO_ID && Accounted(s, id) && c in s.calls && s.calls[c].phase == Entered
    ensures Accounted(Next(s, TryClaim(c, works, stored)), id)
  {
    var next := Next(s, TryClaim(c, works, stored));
    assert s.calls[c].id == id ==> s.calls[c].told == None;
    assert s.calls[c].id == id && works ==> id in next.first && next.calls[c].told == Some(true);
    forall x | x in next.calls && next.calls[x].id == id
      ensures Placed(next.calls[x], id in next.first && next.first[id] == x)
    {
      assert x != c ==> next.calls[x] == s.calls[x];
    }
  }

  lemma {:induction false} RunAccounts(s: State, steps: seq<Step>, id: Id)
    requires id != NO_ID && Accounted(s, id) && Expire(id) !in steps
    ensures Accounted(Run(s, steps), id)
    decreases |steps|
  {
    if steps != [] {
      StepAccounts(s, steps[0], id);
      RunAccounts(Next(s, steps[0]), steps[1..], id);
    }
  }

  /** What becomes of an id in every run from the start in which its key does not expire. The
      handler starts, once, if and only if the call that first stored the key was told that its
      claim worked; it completes, once, if and only if that call then returned success. Every other
      call that is past its claim has returned, and reports success exactly when its own claim call
      worked, whatever became of the handler. */
  lemma HandledExactly(steps: seq<Step>, id: Id)
    requires id != NO_ID && Expire(id) !in steps
    ensures var end := Run(Initial(map[]), steps);
            && (id in end.first ==> end.first[id] in end.calls && end.calls[end.first[id]].id == id)
            && Count(end.starts, id) <= 1 && Count(end.done, id) <= 1
            && (Count(end.starts, id) == 1 <==> id in end.first && end.calls[end.first[id]].told == Some(true))
            && (Count(end.done, id) == 1 <==>
                  && id in end.first && end.calls[end.first[id]].told == Some(true)
                  && end.calls[end.first[id]].phase == Returned(true))
            && (forall c :: c in end.calls && end.calls[c].id == id && end.calls[c].told.Some?
                            && !(id in end.first && end.first[id] == c) ==>
                  end.calls[c].phase == Returned(end.calls[c].told.value))
  {
    RunAccounts(Initial(map[]), steps, id);
  }

  /** Whether a step is the claim of a call that has no id. */
  predicate ClaimsNothing(s: State, step: Step) {
    step.TryClaim? && step.c in s.calls && s.calls[step.c].id == "" && s.calls[step.c].phase == Entered
  }

  function ClaimsOfNothing(s: State, steps: seq<Step>): nat
    decreases |steps|
  {
    if steps == [] then 0
    else (if ClaimsNothing(s, steps[0]) then 1 else 0) + ClaimsOfNothing(Next(s, steps[0]), steps[1..])
  }

  lemma StepWithoutId(s: State, step: Step)
    requires "" !in s.keys
    ensures "" !in Next(s, step).keys
    ensures Count(Next(s, step).starts, "") == Count(s.starts, "") + (if ClaimsNothing(s, step) then 1 else 0)
    ensures ClaimsNothing(s, step) ==> Next(s, step).calls == s.calls[step.c := Call("", Running, None)]
  {
  }

  /** A call without an id always runs the handler, whatever the store: in every run there are as
      many starts for no id as there are such calls that get past their claim, and none of them
      stores a key. */
  lemma {:induction false} NoIdAlwaysRuns(s: State, steps: seq<Step>)
    requires "" !in s.keys
    ensures "" !in Run(s, steps).keys
    ensures Count(Run(s, steps).starts, "") == Count(s.starts, "") + ClaimsOfNothing(s, steps)
    decreases |steps|
  {
    if steps != [] {
      StepWithoutId(s, steps[0]);
      NoIdAlwaysRuns(Next(s, steps[0]), steps[1..]);
    }
  }

  /** So when a call reports success, the handler has not completed for its id if and only if the
      call that first stored the key got an error for its claim or has not returned success; and no
      other call will start it. */
  lemma SuccessWithoutHandling(steps: seq<Step>, id: Id, c: nat)
    requires id != NO_ID && Expire(id) !in steps
    requires var end := Run(Initial(map[]), steps);
             c in end.calls && end.calls[c].id == id && end.calls[c].phase == Returned(true)
    ensures var end := Run(Initial(map[]), steps);
            && id in end.first && end.first[id] in end.calls
            && (Count(end.done, id) == 0 <==>
                  end.calls[end.first[id]].told == Some(false) || end.calls[end.first[id]].phase != Returned(true))
  {
    RunAccounts(Initial(map[]), steps, id);
  }

  /** It happens: the handler of the first call fails, and the second call, as a redelivery would
      make it, reports success. */
  lemma FailureThenSuccess(id: Id)
    requires id != NO_ID
    ensures var end := Run(Initial(map[]), FailingCall(id) + [TryClaim(1, true, true)]);
            && end.calls == map[0 := Call(id, Returned(false), Some(true)), 1 := Call(id, Returned(true), Some(true))]
            && Count(end.starts, id) == 1 && Count(end.done, id) == 0
  {
    var s := Initial(map[]);
    Runs.RunFour(Next, s, FailingCall(id));
    Runs.RunAppend(Next, s, FailingCall(id), [TryClaim(1, true, true)]);
  }

  function FailingCall(id: Id): seq<Step> {
    [Enter(0, id), Enter(1, id), TryClaim(0, true, true), Return(0, false)]
  }

  /** And worse: a claim that is stored but reported as an error leaves an id whose handler is
      never started, and whose next call reports success. */
  lemma LostClaim(id: Id)
    requires id != NO_ID
    ensures var end := Run(Initial(map[]), [Enter(0, id), TryClaim(0, false, true), Enter(1, id), TryClaim(1, true, true)]);
            && end.calls == map[0 := Call(id, Returned(false), Some(false)), 1 := Call(id, Returned(true), Some(true))]
            && Count(end.starts, id) == 0 && Count(end.done, id) == 0
  {
    Runs.RunFour(Next, Initial(map[]), [Enter(0, id), TryClaim(0, false, true), Enter(1, id), TryClaim(1, true, true)]);
  }
}
