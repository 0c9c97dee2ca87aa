/** One subscription of the inventory service: the consumer callback with its acknowledgements,
    the delivery-count cutoff and the dead-letter publication, around the middleware that checks
    an idempotency mark, runs the handler and then sets the mark. Deliveries interleave, fail,
    crash and repeat in any order. */
module Delivery {
  import opened Bytes
  import Runs

  type Id = string

  const NO_ID: Id := ""
  const MAX_DELIVERIES := 5

  /** What the callback does to a message; DeadLetter is an attempt, whether or not it works. */
  datatype Effect = DeadLetter | Ack | Nak | Term

  datatype Outcome = Succeeds | Fails | Panics

  /** Where a delivery stands. Ready has been received and decoded, Running is inside the handler,
      Marking is about to set the mark, Finished is about to be settled. */
  datatype Phase = Ready | Running | Marking | Finished(outcome: Outcome)

  // ----- the phases of one delivery -----

  /** The check: without an id, or when the mark is not seen, the handler starts; an error of the
      store reads as not seen. */
  function AfterCheck(id: Id, marked: set<Id>, storeWorks: bool): Phase {
    if id != NO_ID && storeWorks && id in marked then Finished(Succeeds) else Running
  }

  /** The handler returns: without an id its outcome is final, with one a success is marked. */
  function AfterHandler(id: Id, outcome: Outcome): Phase {
    if outcome == Succeeds && id != NO_ID then Marking else Finished(outcome)
  }

  /** What the callback ends with. meta is the delivery count, if it can be had. */
  function Settlement(outcome: Outcome, meta: Option<nat>): seq<Effect> {
    match outcome
    case Succeeds => [Ack]
    case Panics => [DeadLetter, Term]
    case Fails => if meta.Some? && meta.value >= MAX_DELIVERIES then [DeadLetter, Term] else [Nak]
  }

  /** The outcome of a whole callback, from the marks it finds and what its calls return. */
  function CallbackOutcome(id: Id, marked: set<Id>, seenWorks: bool, next: Outcome, markOk: bool): Outcome {
    match AfterCheck(id, marked, seenWorks)
    case Finished(o) => o
    case _ =>
      match AfterHandler(id, next)
      case Finished(o) => o
      case _ => if markOk then Succeeds else Fails
  }

  /** The marks it leaves. */
  function MarksAfter(id: Id, marked: set<Id>, seenWorks: bool, next: Outcome, stored: bool): set<Id> {
    if AfterCheck(id, marked, seenWorks) == Running && AfterHandler(id, next) == Marking && stored then marked + {id}
    else marked
  }

  // ----- the callback -----

  class MarkStore {
    var marked: set<Id>

    /** Seen: the answer and whether there was an error. */
    method Seen(id: Id, works: bool) returns (seen: bool, ok: bool)
      ensures seen == (works && id in marked) && ok == works
    {
      return works && id in marked, works;
    }

    /** Mark, which may fail before or after it has taken effect. */
    method Mark(id: Id, stored: bool, ok: bool) returns (r: bool)
      requires ok ==> stored
      modifies this
      ensures r == ok && marked == if stored then old(marked) + {id} else old(marked)
    {
      if stored {
        marked := marked + {id};
      }
      r := ok;
    }
  }

  class Message {
    const id: Id
    var effects: seq<Effect>

    constructor (id: Id)
      ensures this.id == id && effects == []
    {
      this.id := id;
      effects := [];
    }

    method Do(e: Effect)
      modifies this
      ensures effects == old(effects) + [e]
    {
      effects := effects + [e];
    }
  }

  /** WithIdempotency around a handler whose outcome is given. */
  method WithIdempotency(store: MarkStore, id: Id, seenWorks: bool, next: Outcome, stored: bool, markOk: bool)
    returns (ran: bool, outcome: Outcome)
    requires markOk ==> stored
    modifies store
    ensures ran == !(id != "" && seenWorks && id in old(store.marked))
    ensures !ran ==> outcome == Succeeds && store.marked == old(store.marked)
    ensures ran && (id == "" || next != Succeeds) ==> outcome == next && store.marked == old(store.marked)
    ensures ran && id != "" && next == Succeeds ==>
              && (outcome == Succeeds <==> markOk) && (outcome == Fails <==> !markOk)
              && store.marked == if stored then old(store.marked) + {id} else old(store.marked)
    ensures ran == AfterCheck(id, old(store.marked), seenWorks).Running?
    ensures outcome == CallbackOutcome(id, old(store.marked), seenWorks, next, markOk)
    ensures store.marked == MarksAfter(id, old(store.marked), seenWorks, next, stored)
  {
    if id == NO_ID {
      return true, next;
    }
    var seen, _ := store.Seen(id, seenWorks);
    if seen {
      return false, Succeeds;
    }
    if next != Succeeds {
      return true, next;
    }
    var ok := store.Mark(id, stored, markOk);
    return true, if ok then Succeeds else Fails;
  }

  /** The callback of Consume, from decoding to settlement. */
  method OnMessage(msg: Message, store: MarkStore, decodes: bool, meta: Option<nat>,
                   seenWorks: bool, next: Outcome, stored: bool, markOk: bool)
    returns (ran: bool, outcome: Outcome)
    requires markOk ==> stored
    modifies msg, store
    ensures decodes ==> ran == !(msg.id != "" && seenWorks && msg.id in old(store.marked))
    ensures decodes && !ran ==> msg.effects == old(msg.effects) + [Ack] && store.marked == old(store.marked)
    ensures decodes && ran && next == Succeeds && msg.id == "" ==>
              msg.effects == old(msg.effects) + [Ack] && store.marked == old(store.marked)
    ensures decodes && ran && next == Succeeds && msg.id != "" && markOk ==>
              msg.effects == old(msg.effects) + [Ack] && store.marked == old(store.marked) + {msg.id}
    ensures decodes && ran && (next == Fails || (next == Succeeds && msg.id != "" && !markOk)) ==>
              && (meta.Some? && meta.value >= 5 ==> msg.effects == old(msg.effects) + [DeadLetter, Term])
              && (meta == None || meta.value < 5 ==> msg.effects == old(msg.effects) + [Nak])
    ensures decodes && ran && next == Panics ==> msg.effects == old(msg.effects) + [DeadLetter, Term]
    ensures decodes && ran && next != Succeeds ==> store.marked == old(store.marked)
    ensures !decodes ==> !ran && store.marked == old(store.marked) && msg.effects == old(msg.effects) + [DeadLetter, Term]
    ensures decodes ==>
              && ran == AfterCheck(msg.id, old(store.marked), seenWorks).Running?
              && outcome == CallbackOutcome(msg.id, old(store.marked), seenWorks, next, markOk)
              && msg.effects == old(msg.effects) + Settlement(outcome, meta)
              && store.marked == MarksAfter(msg.id, old(store.marked), seenWorks, next, stored)
  {
    if !decodes {
      msg.Do(DeadLetter);
      msg.Do(Term);
      return false, Fails;
    }
    ran, outcome := WithIdempotency(store, msg.id, seenWorks, next, stored, markOk);
    match outcome {
      case Panics =>
        msg.Do(DeadLetter);
        msg.Do(Term);
      case Fails =>
        if meta.Some? && meta.value >= MAX_DELIVERIES {
          msg.Do(DeadLetter);
          msg.Do(Term);
        } else {
          msg.Do(Nak);
        }
      case Succeeds =>
        msg.Do(Ack);
    }
  }

  /** Every settlement is exactly one of ack, nak and term; term only follows an attempt to dead
      letter, and nak is never used once five deliveries are known. */
  lemma SettlesOnce(outcome: Outcome, meta: Option<nat>)
    ensures var effects := Settlement(outcome, meta);
            && multiset(effects)[Ack] + multiset(effects)[Nak] + multiset(effects)[Term] == 1
            && (Term in effects <==> effects == [DeadLetter, Term])
            && (Nak in effects && meta.Some? ==> meta.value < MAX_DELIVERIES)
            && (Ack in effects <==> outcome == Succeeds)
  {
  }

  // ----- all deliveries together -----

  /** A message with its history: deliveries, handler starts and naks with the attempts they
      belong to, whether an ack was sent, terms and dead-letter attempts; then the deliveries that
      ended with an ack or term the broker heard of, with one it did not, or with a crash. */
  datatype Msg = Msg(id: Id, delivered: nat, starts: nat, started: set<nat>, naks: nat, nakked: set<nat>,
                     acked: bool, terms: nat, deadLettered: nat, closers: nat, lost: nat, crashed: nat)

  /** The broker is done with a message once an ack or a term has reached it. */
  predicate Closed(m: Msg) {
    m.closers > 0
  }

  /** A delivery in flight: of which message, which attempt, and where it stands. */
  datatype Flight = Flight(msg: nat, attempt: nat, phase: Phase)

  datatype State = State(marked: set<Id>, everMarked: set<Id>, msgs: map<nat, Msg>, flights: map<nat, Flight>)

  /** The callback drops the error of each settlement; reached says whether the broker learns of
      it. */
  datatype Step =
    | Deliver(d: nat, m: nat)
    | Undecodable(d: nat, reached: bool)
    | Check(d: nat, storeWorks: bool)
    | Return(d: nat, outcome: Outcome)
    | Mark(d: nat, stored: bool, ok: bool)
    | Settle(d: nat, metadata: bool, reached: bool)
    | Crash(d: nat)
    | Expire(id: Id)

  function Move(s: State, d: nat, phase: Phase): State
    requires d in s.flights
  {
    s.(flights := s.flights[d := s.flights[d].(phase := phase)])
  }

  function Land(s: State, d: nat, effects: seq<Effect>, reached: bool): State
    requires d in s.flights && s.flights[d].msg in s.msgs
  {
    var f := s.flights[d];
    s.(flights := s.flights - {d}, msgs := s.msgs[f.msg := WithEffects(s.msgs[f.msg], f.attempt, effects, reached)])
  }

  predicate Closing(effects: seq<Effect>) {
    Ack in effects || Term in effects
  }

  function WithEffects(m: Msg, attempt: nat, effects: seq<Effect>, reached: bool): Msg {
    m.(acked := m.acked || Ack in effects,
       naks := m.naks + multiset(effects)[Nak],
       nakked := if Nak in effects then m.nakked + {attempt} else m.nakked,
       terms := m.terms + multiset(effects)[Term],
       deadLettered := m.deadLettered + multiset(effects)[DeadLetter],
       closers := m.closers + (if reached && Closing(effects) then 1 else 0),
       lost := m.lost + (if !reached && Closing(effects) then 1 else 0))
  }

  /** A step that is not enabled leaves the state alone. The broker delivers any message it is
      not done with, even while another delivery of it is in flight. */
  function Next(s: State, step: Step): State {
    match step
    case Deliver(d, m) =>
      if d in s.flights || m !in s.msgs || Closed(s.msgs[m]) then s
      else
        var n := s.msgs[m].delivered + 1;
        s.(flights := s.flights[d := Flight(m, n, Ready)], msgs := s.msgs[m := s.msgs[m].(delivered := n)])
    case Expire(id) =>
      s.(marked := s.marked - {id})
    case Crash(d) =>
      if d in s.flights && s.flights[d].msg in s.msgs then
        var m := s.flights[d].msg;
        s.(flights := s.flights - {d}, msgs := s.msgs[m := s.msgs[m].(crashed := s.msgs[m].crashed + 1)])
      else s.(flights := s.flights - {d})
    case _ =>
      if step.d !in s.flights || s.flights[step.d].msg !in s.msgs then s
      else NextOf(s, step, s.flights[step.d], s.msgs[s.flights[step.d].msg])
  }

  function NextOf(s: State, step: Step, f: Flight, m: Msg): State
    requires !step.Deliver? && !step.Expire? && !step.Crash?
    requires step.d in s.flights && s.flights[step.d] == f && f.msg in s.msgs && s.msgs[f.msg] == m
  {
    match step
    case Undecodable(d, reached) =>
      if f.phase == Ready then Land(s, d, [DeadLetter, Term], reached) else s
    case Check(d, works) =>
      if f.phase != Ready then s
      else
        var phase := AfterCheck(m.id, s.marked, works);
        var s' := Move(s, d, phase);
        if phase == Running then
          s'.(msgs := s.msgs[f.msg := m.(starts := m.starts + 1, started := m.started + {f.attempt})])
        else s'
    case Return(d, outcome) =>
      if f.phase == Running then Move(s, d, AfterHandler(m.id, outcome)) else s
    case Mark(d, stored, ok) =>
      if f.phase != Marking then s
      else
        var s' := Move(s, d, Finished(if ok then Succeeds else Fails));
        if stored || ok then s'.(marked := s.marked + {m.id}, everMarked := s.everMarked + {m.id}) else s'
    case Settle(d, metadata, reached) =>
      if f.phase.Finished? then Land(s, d, Settlement(f.phase.outcome, Meta(metadata, f.attempt)), reached) else s
  }

  /** The delivery count, when the metadata can be read. */
  function Meta(metadata: bool, attempt: nat): Option<nat> {
    if metadata then Some(attempt) else None
  }

  function Run(s: State, steps: seq<Step>): State {
    Runs.Run(Next, s, steps)
  }

  /** The steps of one delivery that is not interrupted. */
  function Callback(d: nat, seenWorks: bool, next: Outcome, stored: bool, markOk: bool, metadata: bool,
                    reached: bool): seq<Step> {
    [Check(d, seenWorks), Return(d, next), Mark(d, stored, markOk), Settle(d, metadata, reached)]
  }

  /** The message of a delivery after its check, with the start counted if there was one. */
  function Checked(m: Msg, attempt: nat, phase: Phase): Msg {
    if phase == Running then m.(starts := m.starts + 1, started := m.started + {attempt}) else m
  }

  /** The steps before the settlement finish the delivery with the callback's outcome. */
  lemma CallbackFinishes(s: State, d: nat, seenWorks: bool, next: Outcome, stored: bool, markOk: bool)
    requires d in s.flights && s.flights[d].phase == Ready && s.flights[d].msg in s.msgs && (markOk ==> stored)
    ensures var f, m := s.flights[d], s.msgs[s.flights[d].msg];
            var end := Next(Next(Next(s, Check(d, seenWorks)), Return(d, next)), Mark(d, stored, markOk));
            && end.marked == MarksAfter(m.id, s.marked, seenWorks, next, stored)
            && end.flights ==
               s.flights[d := f.(phase := Finished(CallbackOutcome(m.id, s.marked, seenWorks, next, markOk)))]
            && end.msgs == s.msgs[f.msg := Checked(m, f.attempt, AfterCheck(m.id, s.marked, seenWorks))]
  {
    var f, m := s.flights[d], s.msgs[s.flights[d].msg];
    var s1 := Next(s, Check(d, seenWorks));
    var phase := AfterCheck(m.id, s.marked, seenWorks);
    assert s1.flights == s.flights[d := f.(phase := phase)];
    var s2 := Next(s1, Return(d, next));
    if phase == Running {
      assert s2 == s1.(flights := s.flights[d := f.(phase := AfterHandler(m.id, next))]);
    } else {
      assert s2 == s1;
    }
  }

  /** Taken one after the other, the steps do what the callback does in one go. */
  lemma CallbackIsRun(s: State, d: nat, seenWorks: bool, next: Outcome, stored: bool, markOk: bool, metadata: bool,
                      reached: bool)
    requires d in s.flights && s.flights[d].phase == Ready && s.flights[d].msg in s.msgs && (markOk ==> stored)
    ensures var f, m := s.flights[d], s.msgs[s.flights[d].msg];
            var end := Run(s, Callback(d, seenWorks, next, stored, markOk, metadata, reached));
            var outcome := CallbackOutcome(m.id, s.marked, seenWorks, next, markOk);
            var effects := Settlement(outcome, Meta(metadata, f.attempt));
            && end.marked == MarksAfter(m.id, s.marked, seenWorks, next, stored)
            && end.flights == s.flights - {d}
            && end.msgs ==
               s.msgs[f.msg := WithEffects(Checked(m, f.attempt, AfterCheck(m.id, s.marked, seenWorks)),
                                           f.attempt, effects, reached)]
  {
    hide Next, Settlement, WithEffects, CallbackOutcome, MarksAfter, AfterCheck, Checked;
    var steps := Callback(d, seenWorks, next, stored, markOk, metadata, reached);
    CallbackFinishes(s, d, seenWorks, next, stored, markOk);
    var s3 := Next(Next(Next(s, Check(d, seenWorks)), Return(d, next)), Mark(d, stored, markOk));
    SettleLands(s3, d, metadata, reached);
    assert s3.flights - {d} == s.flights - {d};
    Runs.RunFour(Next, s, steps);
  }

  lemma SettleLands(s: State, d: nat, metadata: bool, reached: bool)
    requires d in s.flights && s.flights[d].phase.Finished? && s.flights[d].msg in s.msgs
    ensures var f, end := s.flights[d], Next(s, Settle(d, metadata, reached));
            && end.marked == s.marked && end.flights == s.flights - {d}
            && end.msgs ==
               s.msgs[f.msg := WithEffects(s.msgs[f.msg], f.attempt,
                                           Settlement(f.phase.outcome, Meta(metadata, f.attempt)), reached)]
  {
    hide Settlement, WithEffects;
  }

  // ----- what becomes of one delivery -----

  /** A delivery that has been received and decoded. */
  predicate Received(s: State, d: nat) {
    d in s.flights && s.flights[d].phase == Ready && s.flights[d].msg in s.msgs
  }

  /** Its message has been handled before, and the store says so. */
  predicate SeenBefore(s: State, d: nat, seenWorks: bool)
    requires Received(s, d)
  {
    var id := s.msgs[s.flights[d].msg].id;
    id != "" && seenWorks && id in s.marked
  }

  /** The state after a delivery: it is gone, with these marks and this message left behind. */
  predicate LeavesBehind(s: State, end: State, d: nat, marked: set<Id>, m: Msg)
    requires Received(s, d)
  {
    end.marked == marked && end.flights == s.flights - {d} && end.msgs == s.msgs[s.flights[d].msg := m]
  }

  /** The message with one more start of its handler. */
  function Started(m: Msg, attempt: nat): Msg {
    m.(starts := m.starts + 1, started := m.started + {attempt})
  }

  /** The message after an ack or a term, whether the broker has heard of it or not. */
  function Done(m: Msg, reached: bool): Msg {
    if reached then m.(closers := m.closers + 1) else m.(lost := m.lost + 1)
  }

  /** A message the store knows as handled is acked and not handled again. */
  lemma KnownIsAcked(s: State, d: nat, next: Outcome, stored: bool, markOk: bool, metadata: bool, reached: bool)
    requires Received(s, d) && SeenBefore(s, d, true) && (markOk ==> stored)
    ensures var m, end := s.msgs[s.flights[d].msg], Run(s, Callback(d, true, next, stored, markOk, metadata, reached));
            LeavesBehind(s, end, d, s.marked, Done(m.(acked := true), reached))
  {
    CallbackIsRun(s, d, true, next, stored, markOk, metadata, reached);
  }

  /** A handler that succeeds is acked: with an id once the mark is set, without one at once. */
  lemma SuccessIsAcked(s: State, d: nat, seenWorks: bool, metadata: bool, reached: bool)
    requires Received(s, d) && !SeenBefore(s, d, seenWorks)
    ensures var f, m := s.flights[d], s.msgs[s.flights[d].msg];
            var end := Run(s, Callback(d, seenWorks, Succeeds, true, true, metadata, reached));
            LeavesBehind(s, end, d, if m.id == "" then s.marked else s.marked + {m.id},
                         Done(Started(m, f.attempt).(acked := true), reached))
  {
    CallbackIsRun(s, d, seenWorks, Succeeds, true, true, metadata, reached);
  }

  /** A handler that fails, and one that succeeds where the mark cannot be set, is given back until
      five deliveries are known, and then dead-lettered and terminated. The mark may have been set
      all the same. */
  lemma FailureIsGivenBack(s: State, d: nat, seenWorks: bool, next: Outcome, stored: bool, markOk: bool,
                           metadata: bool, reached: bool)
    requires Received(s, d) && !SeenBefore(s, d, seenWorks) && (markOk ==> stored)
    requires next == Fails || (next == Succeeds && s.msgs[s.flights[d].msg].id != "" && !markOk)
    ensures var f, m := s.flights[d], Started(s.msgs[s.flights[d].msg], s.flights[d].attempt);
            var end := Run(s, Callback(d, seenWorks, next, stored, markOk, metadata, reached));
            LeavesBehind(s, end, d, if next == Succeeds && stored then s.marked + {m.id} else s.marked,
                         if metadata && f.attempt >= 5
                         then Done(m.(terms := m.terms + 1, deadLettered := m.deadLettered + 1), reached)
                         else m.(naks := m.naks + 1, nakked := m.nakked + {f.attempt}))
  {
    CallbackIsRun(s, d, seenWorks, next, stored, markOk, metadata, reached);
    hide Run, Callback;
  }

  /** A handler that panics is dead-lettered and terminated, whatever the delivery count. */
  lemma PanicIsTerminated(s: State, d: nat, seenWorks: bool, stored: bool, markOk: bool, metadata: bool, reached: bool)
    requires Received(s, d) && !SeenBefore(s, d, seenWorks) && (markOk ==> stored)
    ensures var m := Started(s.msgs[s.flights[d].msg], s.flights[d].attempt);
            var end := Run(s, Callback(d, seenWorks, Panics, stored, markOk, metadata, reached));
            LeavesBehind(s, end, d, s.marked,
                         Done(m.(terms := m.terms + 1, deadLettered := m.deadLettered + 1), reached))
  {
    CallbackIsRun(s, d, seenWorks, Panics, stored, markOk, metadata, reached);
  }

  /** So is a message that does not decode, before anything else is done with it. */
  lemma UndecodableIsTerminated(s: State, d: nat, reached: bool)
    requires Received(s, d)
    ensures var m := s.msgs[s.flights[d].msg];
            LeavesBehind(s, Next(s, Undecodable(d, reached)), d, s.marked,
                         Done(m.(terms := m.terms + 1, deadLettered := m.deadLettered + 1), reached))
  {
  }

  /** What a step of a delivery in flight can change: this delivery, its message, and marks. */
  predicate LocalTo(s: State, s': State, d: nat)
    requires d in s.flights && s.flights[d].msg in s.msgs
  {
    var f := s.flights[d];
    && s.marked <= s'.marked && s.everMarked <= s'.everMarked
    && (s'.flights == s.flights - {d}
        || (d in s'.flights && s'.flights == s.flights[d := f.(phase := s'.flights[d].phase)]
            && PhaseMoves(s, s', d)))
    && f.msg in s'.msgs && s'.msgs == s.msgs[f.msg := s'.msgs[f.msg]]
    && var m, m' := s.msgs[f.msg], s'.msgs[f.msg];
       && m'.id == m.id && m'.delivered == m.delivered && m.started <= m'.started && m.closers <= m'.closers
       && (m'.acked ==> m.acked || f.phase == Finished(Succeeds))
  }

  /** A handler that runs has been counted, and a success with an id has found or set its mark. */
  predicate PhaseMoves(s: State, s': State, d: nat)
    requires d in s.flights && s.flights[d].msg in s.msgs && d in s'.flights
  {
    var f, phase, id := s.flights[d], s'.flights[d].phase, s.msgs[s.flights[d].msg].id;
    && (phase == Running ==> f.phase == Running || (f.msg in s'.msgs && f.attempt in s'.msgs[f.msg].started))
    && (phase == Finished(Succeeds) ==>
          f.phase == Finished(Succeeds) || id == NO_ID || id in s.marked || (id in s'.marked && id in s'.everMarked))
  }

  predicate Own(s: State, step: Step) {
    && !step.Deliver? && !step.Expire? && !step.Crash?
    && step.d in s.flights && s.flights[step.d].msg in s.msgs
  }

  lemma OwnStepIsLocal(s: State, step: Step)
    requires Own(s, step)
    ensures LocalTo(s, Next(s, step), step.d)
  {
    hide LocalTo;
    match step {
      case Undecodable(d, reached) =>
        if s.flights[d].phase == Ready {
          LandIsLocal(s, d, [DeadLetter, Term], reached);
        } else {
          NothingIsLocal(s, d);
        }
      case Check(d, works) => CheckIsLocal(s, d, works);
      case Return(d, outcome) =>
        if s.flights[d].phase == Running {
          MoveIsLocal(s, d, AfterHandler(s.msgs[s.flights[d].msg].id, outcome));
        } else {
          NothingIsLocal(s, d);
        }
      case Mark(d, stored, ok) => MarkIsLocal(s, d, stored, ok);
      case Settle(d, metadata, reached) =>
        if s.flights[d].phase.Finished? {
          var f := s.flights[d];
          SettlesOnce(f.phase.outcome, Meta(metadata, f.attempt));
          LandIsLocal(s, d, Settlement(f.phase.outcome, Meta(metadata, f.attempt)), reached);
        } else {
          NothingIsLocal(s, d);
        }
    }
  }

  lemma NothingIsLocal(s: State, d: nat)
    requires d in s.flights && s.flights[d].msg in s.msgs
    ensures LocalTo(s, s, d)
  {
    assert s.flights == s.flights[d := s.flights[d].(phase := s.flights[d].phase)];
  }

  lemma LandIsLocal(s: State, d: nat, effects: seq<Effect>, reached: bool)
    requires d in s.flights && s.flights[d].msg in s.msgs
    requires Ack in effects ==> s.flights[d].phase == Finished(Succeeds)
    ensures LocalTo(s, Land(s, d, effects, reached), d)
  {
  }

  lemma MoveIsLocal(s: State, d: nat, phase: Phase)
    requires d in s.flights && s.flights[d].msg in s.msgs && phase != Running
    requires phase == Finished(Succeeds) ==> s.msgs[s.flights[d].msg].id == NO_ID || s.msgs[s.flights[d].msg].id in s.marked
    ensures LocalTo(s, Move(s, d, phase), d)
  {
  }

  lemma CheckIsLocal(s: State, d: nat, works: bool)
    requires d in s.flights && s.flights[d].msg in s.msgs
    ensures LocalTo(s, Next(s, Check(d, works)), d)
  {
    if s.flights[d].phase != Ready {
      NothingIsLocal(s, d);
    }
  }

  lemma MarkIsLocal(s: State, d: nat, stored: bool, ok: bool)
    requires d in s.flights && s.flights[d].msg in s.msgs
    ensures LocalTo(s, Next(s, Mark(d, stored, ok)), d)
  {
    if s.flights[d].phase != Marking {
      NothingIsLocal(s, d);
    }
  }

  /** Nothing delivered yet. */
  predicate Fresh(s: State) {
    && s.flights == map[] && s.marked <= s.everMarked
    && forall m :: m in s.msgs ==> s.msgs[m] == Msg(s.msgs[m].id, 0, 0, {}, 0, {}, false, 0, 0, 0, 0, 0)
  }

  // ----- acked messages are marked -----

  ghost predicate MarksKept(s: State) {
    && s.marked <= s.everMarked
    && (forall m :: m in s.msgs && s.msgs[m].acked && s.msgs[m].id != NO_ID ==> s.msgs[m].id in s.everMarked)
    && (forall d :: d in s.flights ==> s.flights[d].msg in s.msgs)
    && (forall d :: d in s.flights && s.flights[d].phase == Finished(Succeeds) && s.msgs[s.flights[d].msg].id != NO_ID ==>
          s.msgs[s.flights[d].msg].id in s.everMarked)
  }

  lemma LocalKeepsMarks(s: State, s': State, d: nat)
    requires MarksKept(s) && d in s.flights && s.flights[d].msg in s.msgs && LocalTo(s, s', d) && s'.marked <= s'.everMarked
    ensures MarksKept(s') && s'.msgs.Keys == s.msgs.Keys
  {
  }

  lemma StepKeepsMarks(s: State, step: Step)
    requires MarksKept(s)
    ensures MarksKept(Next(s, step)) && Next(s, step).msgs.Keys == s.msgs.Keys
  {
    if Own(s, step) {
      OwnStepIsLocal(s, step);
      assert Next(s, step).marked <= Next(s, step).everMarked;
      hide Next, LocalTo, MarksKept;
      LocalKeepsMarks(s, Next(s, step), step.d);
    } else {
      hide NextOf;
    }
  }

  /** In every run, whatever fails, crashes or is delivered twice, a message with an id is acked
      only after its id has been marked. */
  lemma {:induction false} AckedIsMarked(s: State, steps: seq<Step>)
    requires MarksKept(s)
    ensures MarksKept(Run(s, steps))
    decreases |steps|
  {
    if steps != [] {
      StepKeepsMarks(s, steps[0]);
      AckedIsMarked(Next(s, steps[0]), steps[1..]);
    }
  }

  /** What holds of one id until its mark expires: whatever was acked for it, or is about to be,
      has its mark in the store. */
  ghost predicate MarkHeld(s: State, id: Id) {
    && (forall m :: m in s.msgs && s.msgs[m].acked && s.msgs[m].id == id ==> id in s.marked)
    && (forall d :: d in s.flights ==> s.flights[d].msg in s.msgs)
    && (forall d :: d in s.flights && s.flights[d].phase == Finished(Succeeds) && s.msgs[s.flights[d].msg].id == id ==>
          id in s.marked)
  }

  lemma LocalHoldsMark(s: State, s': State, d: nat, id: Id)
    requires id != NO_ID && MarkHeld(s, id) && d in s.flights && s.flights[d].msg in s.msgs && LocalTo(s, s', d)
    ensures MarkHeld(s', id)
  {
  }

  lemma StepHoldsMark(s: State, step: Step, id: Id)
    requires id != NO_ID && MarkHeld(s, id) && step != Expire(id)
    ensures MarkHeld(Next(s, step), id)
  {
    if Own(s, step) {
      OwnStepIsLocal(s, step);
      hide Next, LocalTo, MarkHeld;
      LocalHoldsMark(s, Next(s, step), step.d, id);
    } else {
      hide NextOf;
    }
  }

  lemma {:induction false} RunHoldsMark(s: State, steps: seq<Step>, id: Id)
    requires id != NO_ID && MarkHeld(s, id) && Expire(id) !in steps
    ensures MarkHeld(Run(s, steps), id)
    decreases |steps|
  {
    if steps != [] {
      StepHoldsMark(s, steps[0], id);
      RunHoldsMark(Next(s, steps[0]), steps[1..], id);
    }
  }

  /** In every run from the start in which the mark of an id does not expire, every acked message
      with that id has it marked, even where checks and marks fail. */
  lemma AckedHasMark(s: State, steps: seq<Step>, id: Id, m: nat)
    requires Fresh(s) && id != NO_ID && Expire(id) !in steps
    requires m in Run(s, steps).msgs && Run(s, steps).msgs[m].acked && Run(s, steps).msgs[m].id == id
    ensures id in Run(s, steps).marked
  {
    RunHoldsMark(s, steps, id);
  }

  // ----- the mark closes the gate -----

  /** How often the handler was started for messages that carry id. */
  function Starts(msgs: map<nat, Msg>, id: Id): (n: map<nat, nat>) {
    map m | m in msgs && msgs[m].id == id :: msgs[m].starts
  }

  /** No expiry of the id, and no failing check for a message that carries it. */
  predicate Working(s: State, step: Step, id: Id) {
    && step != Expire(id)
    && (step.Check? && step.d in s.flights && s.flights[step.d].msg in s.msgs ==>
          s.msgs[s.flights[step.d].msg].id == id ==> step.storeWorks)
  }

  predicate AllWorking(s: State, steps: seq<Step>, id: Id)
    decreases |steps|
  {
    steps == [] || (Working(s, steps[0], id) && AllWorking(Next(s, steps[0]), steps[1..], id))
  }

  /** Only a check starts a handler. */
  lemma StartIsChecked(s: State, step: Step)
    requires Own(s, step)
    ensures var f := s.flights[step.d];
            && f.msg in Next(s, step).msgs
            && (Next(s, step).msgs[f.msg].starts == s.msgs[f.msg].starts
                || (step.Check? && AfterCheck(s.msgs[f.msg].id, s.marked, step.storeWorks) == Running))
  {
    hide Settlement, AfterHandler;
  }

  lemma StepStartsNothing(s: State, step: Step, id: Id)
    requires id != NO_ID && id in s.marked && Working(s, step, id)
    ensures id in Next(s, step).marked && Starts(Next(s, step).msgs, id) == Starts(s.msgs, id)
  {
    if Own(s, step) {
      OwnStepIsLocal(s, step);
      StartIsChecked(s, step);
      hide Next;
    } else {
      hide NextOf;
    }
  }

  /** Once an id is marked, no check made afterwards starts the handler for it, as long as the
      store answers and the mark does not expire. */
  lemma {:induction false} MarkClosesGate(s: State, steps: seq<Step>, id: Id)
    requires id != NO_ID && id in s.marked && AllWorking(s, steps, id)
    ensures id in Run(s, steps).marked && Starts(Run(s, steps).msgs, id) == Starts(s.msgs, id)
    decreases |steps|
  {
    if steps != [] {
      StepStartsNothing(s, steps[0], id);
      MarkClosesGate(Next(s, steps[0]), steps[1..], id);
    }
  }

  /** After an ack the handler never starts again: once a message with an id has been acked, no
      further run in which the store answers and the mark does not expire starts the handler for
      any message with that id. */
  lemma AckClosesGate(s: State, before: seq<Step>, after: seq<Step>, id: Id, m: nat)
    requires Fresh(s) && id != NO_ID && Expire(id) !in before && AllWorking(Run(s, before), after, id)
    requires m in Run(s, before).msgs && Run(s, before).msgs[m].acked && Run(s, before).msgs[m].id == id
    ensures Starts(Run(s, before + after).msgs, id) == Starts(Run(s, before).msgs, id)
  {
    AckedHasMark(s, before, id, m);
    MarkClosesGate(Run(s, before), after, id);
    Runs.RunAppend(Next, s, before, after);
  }

  // ----- bounded redelivery -----

  /** What holds of one message and of its deliveries in flight, in every run. */
  predicate MsgBounded(m: Msg) {
    && (forall a :: a in m.nakked ==> 1 <= a <= m.delivered) && m.naks == |m.nakked|
    && (forall a :: a in m.started ==> 1 <= a <= m.delivered) && m.starts == |m.started|
    && m.terms == m.deadLettered
  }

  predicate FlightBounded(f: Flight, m: Msg) {
    && 1 <= f.attempt <= m.delivered && f.attempt !in m.nakked
    && (f.phase == Ready ==> f.attempt !in m.started)
  }

  ghost predicate Bounded(msgs: map<nat, Msg>, flights: map<nat, Flight>) {
    && (forall m :: m in msgs ==> MsgBounded(msgs[m]))
    && (forall d :: d in flights ==> flights[d].msg in msgs && FlightBounded(flights[d], msgs[flights[d].msg]))
    && (forall d, d' :: d in flights && d' in flights && d != d' && flights[d].msg == flights[d'].msg ==>
          flights[d].attempt != flights[d'].attempt)
  }

  lemma EffectCounts(outcome: Outcome, meta: Option<nat>)
    ensures var effects := multiset(Settlement(outcome, meta));
            && effects[Term] == effects[DeadLetter]
            && effects[Nak] == if Nak in Settlement(outcome, meta) then 1 else 0
    ensures var effects := multiset([DeadLetter, Term]);
            effects[Term] == effects[DeadLetter] && effects[Nak] == 0
  {
  }

  lemma LandingKeepsBounds(m: Msg, f: Flight, effects: seq<Effect>, reached: bool)
    requires MsgBounded(m) && FlightBounded(f, m)
    requires effects == [DeadLetter, Term] || exists outcome, meta :: effects == Settlement(outcome, meta)
    ensures MsgBounded(WithEffects(m, f.attempt, effects, reached))
  {
    EffectCounts(Succeeds, None);
    if outcome, meta :| effects == Settlement(outcome, meta) {
      EffectCounts(outcome, meta);
    }
  }

  /** A delivery ends, and its message records the effects. */
  lemma LandKeepsBounds(msgs: map<nat, Msg>, flights: map<nat, Flight>, d: nat, effects: seq<Effect>, reached: bool)
    requires Bounded(msgs, flights) && d in flights
    requires effects == [DeadLetter, Term] || exists outcome, meta :: effects == Settlement(outcome, meta)
    ensures var f := flights[d];
            Bounded(msgs[f.msg := WithEffects(msgs[f.msg], f.attempt, effects, reached)], flights - {d})
  {
    var f := flights[d];
    LandingKeepsBounds(msgs[f.msg], f, effects, reached);
    hide MsgBounded, Settlement;
    var msgs' := msgs[f.msg := WithEffects(msgs[f.msg], f.attempt, effects, reached)];
    forall x | x in flights - {d} ensures FlightBounded(flights[x], msgs'[flights[x].msg]) {
      assert FlightBounded(flights[x], msgs[flights[x].msg]);
    }
  }

  /** A delivery moves on. */
  lemma MoveKeepsBounds(msgs: map<nat, Msg>, flights: map<nat, Flight>, d: nat, phase: Phase)
    requires Bounded(msgs, flights) && d in flights && phase != Ready
    ensures Bounded(msgs, flights[d := flights[d].(phase := phase)])
  {
    hide MsgBounded;
  }

  lemma StartIsBounded(m: Msg, f: Flight)
    requires MsgBounded(m) && FlightBounded(f, m) && f.phase == Ready
    ensures MsgBounded(m.(starts := m.starts + 1, started := m.started + {f.attempt}))
  {
  }

  /** A delivery starts the handler. */
  lemma StartKeepsBounds(msgs: map<nat, Msg>, flights: map<nat, Flight>, d: nat)
    requires Bounded(msgs, flights) && d in flights && flights[d].phase == Ready
    ensures var f, m := flights[d], msgs[flights[d].msg];
            Bounded(msgs[f.msg := m.(starts := m.starts + 1, started := m.started + {f.attempt})],
                    flights[d := f.(phase := Running)])
  {
    hide MsgBounded;
    var f, m := flights[d], msgs[flights[d].msg];
    StartIsBounded(m, f);
    var m' := m.(starts := m.starts + 1, started := m.started + {f.attempt});
    var msgs', flights' := msgs[f.msg := m'], flights[d := f.(phase := Running)];
    forall x | x in flights' ensures FlightBounded(flights'[x], msgs'[flights'[x].msg]) {
      assert FlightBounded(flights[x], msgs[flights[x].msg]);
      assert flights'[x].msg == flights[x].msg && flights'[x].attempt == flights[x].attempt;
    }
  }

  lemma DeliverKeepsBounds(msgs: map<nat, Msg>, flights: map<nat, Flight>, d: nat, m: nat)
    requires Bounded(msgs, flights) && d !in flights && m in msgs
    ensures var n := msgs[m].delivered + 1;
            Bounded(msgs[m := msgs[m].(delivered := n)], flights[d := Flight(m, n, Ready)])
  {
    var n := msgs[m].delivered + 1;
    var msgs', flights' := msgs[m := msgs[m].(delivered := n)], flights[d := Flight(m, n, Ready)];
    assert MsgBounded(msgs[m]) && n !in msgs[m].started && n !in msgs[m].nakked;
    assert MsgBounded(msgs'[m]);
    hide MsgBounded;
    forall x | x in flights' ensures flights'[x].msg in msgs' && FlightBounded(flights'[x], msgs'[flights'[x].msg]) {
      assert x != d ==> flights'[x] == flights[x] && FlightBounded(flights[x], msgs[flights[x].msg]);
    }
  }

  /** A delivery is lost in a crash. */
  lemma CrashKeepsBounds(msgs: map<nat, Msg>, flights: map<nat, Flight>, d: nat, n: nat)
    requires Bounded(msgs, flights) && d in flights
    ensures var m := flights[d].msg; Bounded(msgs[m := msgs[m].(crashed := n)], flights - {d})
  {
    var m := flights[d].msg;
    var msgs' := msgs[m := msgs[m].(crashed := n)];
    assert MsgBounded(msgs[m]) && MsgBounded(msgs'[m]);
    hide MsgBounded;
    forall x | x in flights - {d} ensures FlightBounded(flights[x], msgs'[flights[x].msg]) {
      assert FlightBounded(flights[x], msgs[flights[x].msg]);
    }
  }

  lemma StepKeepsBounds(s: State, step: Step)
    requires Bounded(s.msgs, s.flights)
    ensures Bounded(Next(s, step).msgs, Next(s, step).flights)
  {
    hide MsgBounded, FlightBounded, Settlement;
    match step {
      case Deliver(d, m) =>
        if d !in s.flights && m in s.msgs && !Closed(s.msgs[m]) {
          DeliverKeepsBounds(s.msgs, s.flights, d, m);
        }
      case Expire(_) =>
      case Crash(d) =>
        if d in s.flights {
          CrashKeepsBounds(s.msgs, s.flights, d, s.msgs[s.flights[d].msg].crashed + 1);
        }
      case _ =>
        if step.d in s.flights {
          OwnStepKeepsBounds(s, step);
        }
    }
  }

  lemma CheckKeepsBounds(s: State, step: Step)
    requires Bounded(s.msgs, s.flights) && step.Check? && step.d in s.flights && s.flights[step.d].msg in s.msgs
    ensures Bounded(Next(s, step).msgs, Next(s, step).flights)
  {
    hide Bounded;
    var d := step.d;
    var f := s.flights[d];
    if f.phase == Ready {
      var phase := AfterCheck(s.msgs[f.msg].id, s.marked, step.storeWorks);
      if phase == Running {
        StartKeepsBounds(s.msgs, s.flights, d);
      } else {
        MoveKeepsBounds(s.msgs, s.flights, d, phase);
      }
    }
  }

  lemma OwnStepKeepsBounds(s: State, step: Step)
    requires Bounded(s.msgs, s.flights)
    requires !step.Deliver? && !step.Expire? && !step.Crash? && step.d in s.flights
    ensures Bounded(Next(s, step).msgs, Next(s, step).flights)
  {
    var d := step.d;
    var f := s.flights[d];
    assert f.msg in s.msgs;
    hide Bounded, Settlement, WithEffects, AfterCheck;
    match step {
      case Undecodable(_, reached) => LandKeepsBounds(s.msgs, s.flights, d, [DeadLetter, Term], reached);
      case Check(_, _) => CheckKeepsBounds(s, step);
      case Return(_, outcome) =>
        MoveKeepsBounds(s.msgs, s.flights, d, AfterHandler(s.msgs[f.msg].id, outcome));
      case Mark(_, _, ok) => MoveKeepsBounds(s.msgs, s.flights, d, Finished(if ok then Succeeds else Fails));
      case Settle(_, metadata, reached) =>
        if f.phase.Finished? {
          LandKeepsBounds(s.msgs, s.flights, d, Settlement(f.phase.outcome, Meta(metadata, f.attempt)), reached);
        }
    }
  }

  lemma {:induction false} Subset(a: set<nat>, b: set<nat>)
    requires a <= b
    ensures |a| <= |b|
  {
    if a != {} {
      var x :| x in a;
      Subset(a - {x}, b - {x});
    }
  }

  function Naturals(n: nat): (a: set<nat>)
    ensures |a| == n && forall x :: x in a <==> 1 <= x <= n
  {
    if n == 0 then {} else Naturals(n - 1) + {n}
  }

  /** In every run, overlapping deliveries, crashes, unreadable delivery counts and settlements
      the broker never hears of included: the handler starts at most once per delivery, a delivery
      is nakked at most once, and there are as many terms as dead-letter attempts. */
  lemma {:induction false} StartsBounded(s: State, steps: seq<Step>)
    requires Bounded(s.msgs, s.flights)
    ensures Bounded(Run(s, steps).msgs, Run(s, steps).flights)
    ensures forall m :: m in Run(s, steps).msgs ==>
              var msg := Run(s, steps).msgs[m];
              msg.starts <= msg.delivered && msg.naks <= msg.delivered && msg.terms == msg.deadLettered
    decreases |steps|
  {
    if steps == [] {
      forall m | m in s.msgs ensures s.msgs[m].starts <= s.msgs[m].delivered && s.msgs[m].naks <= s.msgs[m].delivered {
        Subset(s.msgs[m].started, Naturals(s.msgs[m].delivered));
        Subset(s.msgs[m].nakked, Naturals(s.msgs[m].delivered));
      }
    } else {
      StepKeepsBounds(s, steps[0]);
      StartsBounded(Next(s, steps[0]), steps[1..]);
    }
  }

  // ----- what the delivery count adds -----

  /** The callback can read the delivery count. */
  predicate HasMetadata(step: Step) {
    step.Settle? ==> step.metadata
  }

  /** Only the first four deliveries have been given back. */
  predicate NakkedEarly(msgs: map<nat, Msg>) {
    forall m :: m in msgs ==> forall a :: a in msgs[m].nakked ==> 1 <= a < MAX_DELIVERIES
  }

  lemma StepNaksEarly(s: State, step: Step)
    requires Bounded(s.msgs, s.flights) && NakkedEarly(s.msgs) && HasMetadata(step)
    ensures NakkedEarly(Next(s, step).msgs)
  {
    hide AfterCheck, AfterHandler, MsgBounded;
    if step.Settle? && step.d in s.flights && s.flights[step.d].phase.Finished? {
      var f := s.flights[step.d];
      assert FlightBounded(f, s.msgs[f.msg]);
      SettlesOnce(f.phase.outcome, Some(f.attempt));
      hide Settlement;
    }
    hide Bounded;
  }

  /** In every run that can read the delivery count a message is nakked at most four times. */
  lemma {:induction false} NaksBounded(s: State, steps: seq<Step>)
    requires Bounded(s.msgs, s.flights) && NakkedEarly(s.msgs) && forall k :: 0 <= k < |steps| ==> HasMetadata(steps[k])
    ensures NakkedEarly(Run(s, steps).msgs)
    ensures forall m :: m in Run(s, steps).msgs ==> Run(s, steps).msgs[m].naks <= 4
    decreases |steps|
  {
    if steps == [] {
      forall m | m in s.msgs ensures s.msgs[m].naks <= 4 {
        assert MsgBounded(s.msgs[m]);
        Subset(s.msgs[m].nakked, Naturals(4));
      }
    } else {
      StepKeepsBounds(s, steps[0]);
      StepNaksEarly(s, steps[0]);
      NaksBounded(Next(s, steps[0]), steps[1..]);
    }
  }

  // ----- every delivery is accounted for -----

  function Flying(flights: map<nat, Flight>, m: nat): set<nat> {
    set d | d in flights && flights[d].msg == m
  }

  /** How many deliveries of a message have ended, one way or another. */
  function Ended(m: Msg): nat {
    m.naks + m.closers + m.lost + m.crashed
  }

  ghost predicate Conserved(s: State) {
    && (forall d :: d in s.flights ==> s.flights[d].msg in s.msgs)
    && (forall m :: m in s.msgs ==> s.msgs[m].delivered == Ended(s.msgs[m]) + |Flying(s.flights, m)|)
  }

  /** One delivery of message x more in flight, or one less. */
  lemma FlyingMoves(flights: map<nat, Flight>, d: nat, f: Flight)
    requires d !in flights
    ensures Flying(flights[d := f], f.msg) == Flying(flights, f.msg) + {d} && d !in Flying(flights, f.msg)
    ensures forall m :: m != f.msg ==> Flying(flights[d := f], m) == Flying(flights, m)
  {
  }

  lemma FlyingEnds(flights: map<nat, Flight>, d: nat)
    requires d in flights
    ensures var m := flights[d].msg; |Flying(flights - {d}, m)| + 1 == |Flying(flights, m)|
    ensures forall m :: m != flights[d].msg ==> Flying(flights - {d}, m) == Flying(flights, m)
  {
    var m := flights[d].msg;
    assert Flying(flights - {d}, m) == Flying(flights, m) - {d};
  }

  lemma FlyingStays(flights: map<nat, Flight>, d: nat, phase: Phase, m: nat)
    requires d in flights
    ensures Flying(flights[d := flights[d].(phase := phase)], m) == Flying(flights, m)
  {
  }

  /** A step of a delivery either leaves it in flight, with its message's count of ended deliveries
      as it was, or ends it and counts it once. */
  lemma OwnStepEnds(s: State, step: Step)
    requires Own(s, step)
    ensures var f, s' := s.flights[step.d], Next(s, step);
            && f.msg in s'.msgs
            && var m, m' := s.msgs[f.msg], s'.msgs[f.msg];
               && m'.crashed == m.crashed && m.closers <= m'.closers
               && (if step.d in s'.flights then m'.naks == m.naks && m'.closers == m.closers && m'.lost == m.lost
                   else Ended(m') == Ended(m) + 1)
  {
    hide AfterCheck, AfterHandler;
    if step.Settle? && s.flights[step.d].phase.Finished? {
      SettlesOnce(s.flights[step.d].phase.outcome, Meta(step.metadata, s.flights[step.d].attempt));
    }
  }

  lemma LocalConserves(s: State, s': State, d: nat)
    requires Conserved(s) && d in s.flights && s.flights[d].msg in s.msgs && LocalTo(s, s', d)
    requires Ended(s'.msgs[s.flights[d].msg]) == Ended(s.msgs[s.flights[d].msg]) + if d in s'.flights then 0 else 1
    ensures Conserved(s')
  {
    hide PhaseMoves, Flying, Ended;
    if d in s'.flights {
      forall m | m in s'.msgs ensures Flying(s'.flights, m) == Flying(s.flights, m) {
        FlyingStays(s.flights, d, s'.flights[d].phase, m);
      }
    } else {
      FlyingEnds(s.flights, d);
    }
  }

  lemma StepConserves(s: State, step: Step)
    requires Conserved(s)
    ensures Conserved(Next(s, step))
  {
    if Own(s, step) {
      OwnStepIsLocal(s, step);
      OwnStepEnds(s, step);
      hide Next, LocalTo, Conserved;
      LocalConserves(s, Next(s, step), step.d);
    } else if step.Deliver? {
      DeliverConserves(s, step.d, step.m);
    } else if step.Crash? && step.d in s.flights {
      CrashConserves(s, step.d);
    } else {
      assert step.Crash? ==> s.flights - {step.d} == s.flights;
      hide NextOf, Flying;
    }
  }

  lemma DeliverConserves(s: State, d: nat, m: nat)
    requires Conserved(s)
    ensures Conserved(Next(s, Deliver(d, m)))
  {
    hide Flying;
    if d !in s.flights && m in s.msgs && !Closed(s.msgs[m]) {
      FlyingMoves(s.flights, d, Flight(m, s.msgs[m].delivered + 1, Ready));
    }
  }

  lemma CrashConserves(s: State, d: nat)
    requires Conserved(s) && d in s.flights
    ensures Conserved(Next(s, Crash(d)))
  {
    FlyingEnds(s.flights, d);
    var s' := Next(s, Crash(d));
    assert s'.flights == s.flights - {d};
    hide Flying;
    forall m | m in s'.msgs ensures s'.msgs[m].delivered == Ended(s'.msgs[m]) + |Flying(s'.flights, m)| {
      assert m != s.flights[d].msg ==> s'.msgs[m] == s.msgs[m];
    }
  }

  /** In every run each delivery of a message is in flight or has ended in exactly one way: given
      back, acked or terminated with the broker's knowledge or without it, or crashed. */
  lemma {:induction false} EveryDeliveryCounts(s: State, steps: seq<Step>)
    requires Conserved(s)
    ensures Conserved(Run(s, steps))
    ensures forall m :: m in Run(s, steps).msgs ==>
              var msg := Run(s, steps).msgs[m];
              msg.delivered == msg.naks + msg.closers + msg.lost + msg.crashed + |Flying(Run(s, steps).flights, m)|
    decreases |steps|
  {
    if steps != [] {
      StepConserves(s, steps[0]);
      EveryDeliveryCounts(Next(s, steps[0]), steps[1..]);
    }
  }

  /** So in every run that can read the delivery count, however it crashes and overlaps, a message
      the broker is not done with has had at most four deliveries besides those in flight, crashed
      or settled without the broker hearing of it. */
  lemma DeliveriesBounded(s: State, steps: seq<Step>)
    requires Conserved(s) && Bounded(s.msgs, s.flights) && NakkedEarly(s.msgs)
    requires forall k :: 0 <= k < |steps| ==> HasMetadata(steps[k])
    ensures forall m :: m in Run(s, steps).msgs ==>
              var msg := Run(s, steps).msgs[m];
              && msg.delivered <= 4 + msg.closers + msg.lost + msg.crashed + |Flying(Run(s, steps).flights, m)|
              && (!Closed(msg) ==> msg.delivered <= 4 + |Flying(Run(s, steps).flights, m)| + msg.crashed + msg.lost)
  {
    EveryDeliveryCounts(s, steps);
    NaksBounded(s, steps);
  }

  // ----- runs without crashes or overlapping deliveries -----

  /** The broker redelivers only after the previous delivery has been settled, and hears of every
      ack and term. */
  predicate Calm(s: State, step: Step) {
    && HasMetadata(step)
    && !step.Crash?
    && Heard(s, step)
    && (step.Deliver? ==> forall d :: d in s.flights ==> s.flights[d].msg != step.m)
  }

  /** A nak may be lost: the message is then delivered again when the wait for it ends. */
  predicate Heard(s: State, step: Step) {
    match step
    case Undecodable(_, reached) => reached
    case Settle(d, _, reached) =>
      reached || (d in s.flights && s.flights[d].phase == Finished(Fails) && s.flights[d].attempt < MAX_DELIVERIES)
    case _ => true
  }

  predicate AllCalm(s: State, steps: seq<Step>)
    decreases |steps|
  {
    steps == [] || (Calm(s, steps[0]) && AllCalm(Next(s, steps[0]), steps[1..]))
  }

  /** Nothing was lost, and a message is in flight once, or done with, or neither. */
  ghost predicate Orderly(s: State) {
    forall m :: m in s.msgs ==>
      s.msgs[m].lost == 0 && s.msgs[m].crashed == 0 && s.msgs[m].closers + |Flying(s.flights, m)| <= 1
  }

  /** What bounds the deliveries in such runs. */
  ghost predicate AtMostFive(s: State) {
    Conserved(s) && Bounded(s.msgs, s.flights) && NakkedEarly(s.msgs) && Orderly(s)
  }

  lemma OneFlight(s: State, d: nat, d': nat)
    requires Orderly(s) && d in s.flights && d' in s.flights && s.flights[d].msg == s.flights[d'].msg
    requires s.flights[d].msg in s.msgs
    ensures d == d'
  {
    if d != d' {
      Subset({d, d'}, Flying(s.flights, s.flights[d].msg));
    }
  }

  lemma CalmLosesNothing(s: State, step: Step)
    requires Own(s, step) && Calm(s, step)
    ensures s.flights[step.d].msg in Next(s, step).msgs
    ensures Next(s, step).msgs[s.flights[step.d].msg].lost == s.msgs[s.flights[step.d].msg].lost
  {
    hide AfterCheck, AfterHandler;
  }

  lemma LocalStaysOrderly(s: State, s': State, d: nat)
    requires Orderly(s) && d in s.flights && s.flights[d].msg in s.msgs && LocalTo(s, s', d)
    requires var m, m' := s.msgs[s.flights[d].msg], s'.msgs[s.flights[d].msg];
             && m'.lost == m.lost && m'.crashed == m.crashed
             && m'.closers <= m.closers + if d in s'.flights then 0 else 1
    ensures Orderly(s')
  {
    hide PhaseMoves, Flying;
    if d in s'.flights {
      forall m | m in s'.msgs ensures Flying(s'.flights, m) == Flying(s.flights, m) {
        FlyingStays(s.flights, d, s'.flights[d].phase, m);
      }
    } else {
      FlyingEnds(s.flights, d);
    }
  }

  lemma StepStaysOrderly(s: State, step: Step)
    requires Orderly(s) && Calm(s, step)
    ensures Orderly(Next(s, step))
  {
    if Own(s, step) {
      OwnStepIsLocal(s, step);
      OwnStepEnds(s, step);
      CalmLosesNothing(s, step);
      hide Next, LocalTo, Orderly;
      LocalStaysOrderly(s, Next(s, step), step.d);
    } else if step.Deliver? && step.d !in s.flights && step.m in s.msgs {
      hide NextOf;
      FlyingMoves(s.flights, step.d, Flight(step.m, s.msgs[step.m].delivered + 1, Ready));
      assert Flying(s.flights, step.m) == {};
    } else {
      hide NextOf;
    }
  }

  lemma StepKeepsFive(s: State, step: Step)
    requires AtMostFive(s) && Calm(s, step)
    ensures AtMostFive(Next(s, step))
  {
    hide Bounded, Conserved, Orderly, NakkedEarly;
    StepConserves(s, step);
    StepKeepsBounds(s, step);
    StepNaksEarly(s, step);
    StepStaysOrderly(s, step);
  }

  /** In every run without crashes, overlapping deliveries, missing delivery counts and lost acks
      or terms, a message is delivered at most five times, and its handler starts at most five
      times. */
  lemma {:induction false} FiveDeliveries(s: State, steps: seq<Step>)
    requires AtMostFive(s) && AllCalm(s, steps)
    ensures AtMostFive(Run(s, steps))
    ensures forall m :: m in Run(s, steps).msgs ==>
              Run(s, steps).msgs[m].delivered <= MAX_DELIVERIES && Run(s, steps).msgs[m].starts <= MAX_DELIVERIES
    decreases |steps|
  {
    if steps == [] {
      DeliveriesBounded(s, []);
      StartsBounded(s, []);
    } else {
      StepKeepsFive(s, steps[0]);
      FiveDeliveries(Next(s, steps[0]), steps[1..]);
    }
  }

  /** A state where nothing has been delivered satisfies what the runs start from. */
  lemma FreshIsGood(s: State)
    requires Fresh(s)
    ensures MarksKept(s) && (forall id: Id :: MarkHeld(s, id)) && AtMostFive(s)
  {
    assert forall m :: Flying(s.flights, m) == {};
  }

  /** A delivery of message m whose handler fails. */
  function FailingRound(m: nat, metadata: bool, reached: bool): seq<Step> {
    [Deliver(0, m)] + Callback(0, true, Fails, false, false, metadata, reached)
  }

  function FailingRounds(m: nat, n: nat, metadata: bool, reached: bool): seq<Step> {
    if n == 0 then [] else FailingRound(m, metadata, reached) + FailingRounds(m, n - 1, metadata, reached)
  }

  /** Such a round can be repeated after it. */
  predicate CanFail(s: State, m: nat)
    ensures CanFail(s, m) ==> m in s.msgs
  {
    0 !in s.flights && m in s.msgs && !Closed(s.msgs[m]) && s.msgs[m].id !in s.marked
  }

  /** The message after one failing delivery. */
  lemma FailedOnce(m: Msg, attempt: nat, metadata: bool, reached: bool)
    requires !Closed(m) && (metadata ==> !reached)
    ensures var effects := Settlement(Fails, Meta(metadata, attempt));
            var m' := WithEffects(Checked(m, attempt, Running), attempt, effects, reached);
            && m'.id == m.id && !Closed(m') && m'.delivered == m.delivered && m'.starts == m.starts + 1
            && (!metadata ==> m'.naks == m.naks + 1)
  {
  }

  lemma RoundRepeats(s: State, m: nat, metadata: bool, reached: bool)
    requires CanFail(s, m) && (metadata ==> !reached)
    ensures var end := Run(s, FailingRound(m, metadata, reached));
            && CanFail(end, m)
            && end.msgs[m].delivered == s.msgs[m].delivered + 1
            && end.msgs[m].starts == s.msgs[m].starts + 1
            && (!metadata ==> end.msgs[m].naks == s.msgs[m].naks + 1)
  {
    hide WithEffects, Checked, Settlement, Callback;
    var round, s1 := FailingRound(m, metadata, reached), Next(s, Deliver(0, m));
    var msg := s.msgs[m].(delivered := s.msgs[m].delivered + 1);
    assert s1 == s.(flights := s.flights[0 := Flight(m, msg.delivered, Ready)], msgs := s.msgs[m := msg]);
    hide Next;
    assert round[0] == Deliver(0, m) && round[1..] == Callback(0, true, Fails, false, false, metadata, reached);
    CallbackIsRun(s1, 0, true, Fails, false, false, metadata, reached);
    FailedOnce(msg, msg.delivered, metadata, reached);
  }

  /** Both are needed: without the delivery count a message whose handler keeps failing is nakked
      any number of times, and when its terms are lost it is delivered, and its handler started,
      any number of times. */
  lemma {:induction false} RedeliveryUnbounded(s: State, m: nat, n: nat, metadata: bool, reached: bool)
    requires CanFail(s, m) && (metadata ==> !reached)
    ensures var end := Run(s, FailingRounds(m, n, metadata, reached));
            && CanFail(end, m)
            && end.msgs[m].delivered == s.msgs[m].delivered + n
            && end.msgs[m].starts == s.msgs[m].starts + n
            && (!metadata ==> end.msgs[m].naks == s.msgs[m].naks + n)
    decreases n
  {
    hide Next, CanFail, FailingRound;
    if n > 0 {
      var round, rest := FailingRound(m, metadata, reached), FailingRounds(m, n - 1, metadata, reached);
      var mid := Run(s, round);
      RoundRepeats(s, m, metadata, reached);
      Runs.RunAppend(Next, s, round, rest);
      RedeliveryUnbounded(mid, m, n - 1, metadata, reached);
      hide Run;
      assert FailingRounds(m, n, metadata, reached) == round + rest;
    }
  }
}
