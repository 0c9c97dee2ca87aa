/** The handlers under the broker: a delivery that passes the check starts a handler, which reads
    its stock row, writes it, publishes and returns, while other deliveries do the same in between.
    What redelivery of one message can do to the stock is bounded by its deliveries. */
module Redelivery {
  import opened Bytes
  import Runs
  import D = Delivery
  import S = Stock
  import H = Handlers

  /** What a message asks for. */
  datatype Content = Content(key: S.Key, event: S.Event)

  /** The deliveries, the stock, and for each handler that is past its write the row it publishes
      from, or None when it can only fail; then, for each message, the deliveries whose write was
      accepted and what these writes came to. */
  datatype World = World(net: D.State, stock: S.State, told: map<nat, Option<S.Row>>, content: map<nat, Content>,
                         writers: map<nat, set<nat>>, accounts: map<nat, S.Ledger>)

  /** Broker is any step of the deliveries but a handler's return, which is Finish; first and
      second say whether its publications are taken. A handler can also abort wherever it stands,
      with an error of the database, say, or a panic. */
  datatype Step =
    | Broker(step: D.Step)
    | Write(d: nat)
    | Finish(d: nat, first: bool, second: bool, aborted: Option<D.Outcome>)

  function Writers(writers: map<nat, set<nat>>, m: nat): set<nat> {
    if m in writers then writers[m] else {}
  }

  function Account(accounts: map<nat, S.Ledger>, m: nat): S.Ledger {
    if m in accounts then accounts[m] else S.Ledger(0, 0, 0, 0)
  }

  predicate Running(w: World, d: nat) {
    && d in w.net.flights && w.net.flights[d].phase == D.Running
    && w.net.flights[d].msg in w.net.msgs && w.net.flights[d].msg in w.content
  }

  /** The check of a delivery starts its handler. */
  predicate Begins(w: World, step: D.Step) {
    && step.Check? && step.d in w.net.flights && w.net.flights[step.d].phase == D.Ready
    && w.net.flights[step.d].msg in w.net.msgs && w.net.flights[step.d].msg in w.content
    && D.AfterCheck(w.net.msgs[w.net.flights[step.d].msg].id, w.net.marked, step.storeWorks) == D.Running
  }

  /** The handler reads its row; when there is none it can only fail. */
  function Begin(w: World, d: nat): World
    requires d in w.net.flights && w.net.flights[d].msg in w.content
  {
    var c := w.content[w.net.flights[d].msg];
    w.(stock := S.Next(w.stock, S.Read(d, c.key, c.event)),
       told := if c.key in w.stock.rows then w.told else w.told[d := None])
  }

  /** The table accepts what a handler writes. */
  predicate Accepted(p: S.Pending, rows: map<S.Key, S.Row>) {
    S.Written(p).Some? && p.key in rows && S.Fits(S.Written(p).value)
  }

  predicate Rejected(p: S.Pending, rows: map<S.Key, S.Row>) {
    S.Written(p).Some? && p.key in rows && !S.Fits(S.Written(p).value)
  }

  /** The handler writes, or decides not to. */
  function WriteOf(w: World, d: nat): World
    requires Running(w, d) && d in w.stock.pending
  {
    var f, p := w.net.flights[d], w.stock.pending[d];
    var w' := w.(stock := S.Next(w.stock, S.Write(d)),
                 told := w.told[d := if Rejected(p, w.stock.rows) then None else Some(p.snapshot)]);
    if Accepted(p, w.stock.rows) then
      w'.(writers := w.writers[f.msg := Writers(w.writers, f.msg) + {f.attempt}],
          accounts := w.accounts[f.msg := S.Enter(Account(w.accounts, f.msg), p.event, p.snapshot)])
    else w'
  }

  /** A handler that is past its write succeeds if all it publishes is taken. */
  function HandlerOutcome(w: World, d: nat, accepted: seq<bool>): D.Outcome
    requires Running(w, d) && d in w.told && |accepted| == 2
  {
    match w.told[d]
    case None => D.Fails
    case Some(row) =>
      var notices := H.Notices(w.content[w.net.flights[d].msg].event, row);
      if |H.Taken(notices, accepted)| < |notices| then D.Fails else D.Succeeds
  }

  /** A handler is lost with what it has read. */
  function Drop(w: World, d: nat): World {
    w.(stock := S.Next(w.stock, S.Crash(d)), told := w.told - {d})
  }

  /** The step of the deliveries that a step takes, if any. */
  function NetStep(w: World, step: Step): Option<D.Step> {
    match step
    case Broker(b) => if b.Return? then None else Some(b)
    case Write(_) => None
    case Finish(d, first, second, aborted) =>
      if !Running(w, d) || aborted == Some(D.Succeeds) then None
      else if aborted.Some? then Some(D.Return(d, aborted.value))
      else if d in w.stock.pending || d !in w.told then None
      else Some(D.Return(d, HandlerOutcome(w, d, [first, second])))
  }

  /** What a step does besides moving the deliveries. */
  function Local(w: World, step: Step): World {
    match step
    case Broker(b) => if b.Crash? then Drop(w, b.d) else if Begins(w, b) then Begin(w, b.d) else w
    case Write(d) => if Running(w, d) && d in w.stock.pending then WriteOf(w, d) else w
    case Finish(d, _, _, _) => if NetStep(w, step).Some? then Drop(w, d) else w
  }

  function Next(w: World, step: Step): World {
    Local(w, step).(net := if NetStep(w, step).Some? then D.Next(w.net, NetStep(w, step).value) else w.net)
  }

  function Run(w: World, steps: seq<Step>): World {
    Runs.Run(Next, w, steps)
  }

  lemma NextWrite(w: World, d: nat)
    ensures Next(w, Write(d)) == if Running(w, d) && d in w.stock.pending then WriteOf(w, d) else w
  {
    hide WriteOf;
    assert Running(w, d) && d in w.stock.pending ==> WriteOf(w, d).net == w.net by {
      if Running(w, d) && d in w.stock.pending {
        WriteChanges(w, d);
      }
    }
  }

  // ----- what every run keeps -----

  /** Every handler under way has been counted as a start. */
  predicate StartsCounted(net: D.State) {
    forall d :: d in net.flights ==>
      && net.flights[d].msg in net.msgs
      && (net.flights[d].phase == D.Running ==> net.flights[d].attempt in net.msgs[net.flights[d].msg].started)
  }

  /** A handler that has read and not yet written is under way, for its message's key and event,
      and its delivery has not written before. */
  predicate Held(net: D.State, content: map<nat, Content>, pending: map<nat, S.Pending>, writers: map<nat, set<nat>>) {
    forall d :: d in pending ==>
      && d in net.flights && net.flights[d].phase == D.Running
      && var f := net.flights[d];
         && f.msg in content && pending[d].key == content[f.msg].key && pending[d].event == content[f.msg].event
         && f.attempt !in Writers(writers, f.msg)
  }

  /** Only started deliveries write. */
  predicate WritersStarted(msgs: map<nat, D.Msg>, writers: map<nat, set<nat>>) {
    forall m :: m in writers ==> m in msgs && writers[m] <= msgs[m].started
  }

  predicate AccountsWithin(content: map<nat, Content>, writers: map<nat, set<nat>>, accounts: map<nat, S.Ledger>) {
    forall m :: m in content ==> Within(Account(accounts, m), content[m].event, |Writers(writers, m)|)
  }

  /** An accepted write of a message is paid for by a start of its handler, and comes to at most
      its quantity. */
  predicate PaidFor(w: World) {
    && StartsCounted(w.net)
    && Held(w.net, w.content, w.stock.pending, w.writers)
    && WritersStarted(w.net.msgs, w.writers)
    && AccountsWithin(w.content, w.writers, w.accounts)
  }

  function Total(l: S.Ledger): int {
    l.granted + l.released + l.shipped + l.restored
  }

  /** What n writes of an event come to. */
  predicate Within(l: S.Ledger, e: S.Event, n: nat) {
    && Total(l) <= n * e.quantity
    && (e.OrderPlaced? ==> l == S.Ledger(n * e.quantity, 0, 0, 0))
    && (!e.OrderPlaced? ==> l.granted == 0)
  }

  lemma EnterStaysWithin(l: S.Ledger, e: S.Event, r: S.Row, n: nat)
    requires Within(l, e, n)
    ensures Within(S.Enter(l, e, r), e, n + 1)
  {
    assert (n + 1) * e.quantity == n * e.quantity + e.quantity;
  }

  /** What a step of the deliveries does to the handlers that are under way, but for one that
      returns or crashes. */
  predicate Frame(net: D.State, net': D.State, except: set<nat>) {
    && net'.msgs.Keys == net.msgs.Keys
    && (forall m :: m in net.msgs ==> net.msgs[m].started <= net'.msgs[m].started)
    && (forall d :: d in net.flights && d !in except && net.flights[d].phase == D.Running ==>
          d in net'.flights && net'.flights[d] == net.flights[d])
  }

  function EndedBy(step: D.Step): set<nat> {
    if step.Return? || step.Crash? then {step.d} else {}
  }

  lemma NetFrame(net: D.State, step: D.Step)
    requires StartsCounted(net)
    ensures Frame(net, D.Next(net, step), EndedBy(step)) && StartsCounted(D.Next(net, step))
  {
    if D.Own(net, step) {
      D.OwnStepIsLocal(net, step);
      if net.flights[step.d].phase == D.Running && !step.Return? {
        RunningStays(net, step);
      }
      hide D.Next, D.LocalTo, StartsCounted, Frame;
      LocalFrame(net, D.Next(net, step), step);
    } else {
      hide D.NextOf;
    }
  }

  lemma LocalFrame(net: D.State, net': D.State, step: D.Step)
    requires StartsCounted(net) && D.Own(net, step) && D.LocalTo(net, net', step.d)
    requires net.flights[step.d].phase == D.Running && !step.Return? ==> net' == net
    ensures Frame(net, net', EndedBy(step)) && StartsCounted(net')
  {
  }

  /** Only its return ends a handler that runs. */
  lemma RunningStays(net: D.State, step: D.Step)
    requires D.Own(net, step) && net.flights[step.d].phase == D.Running && !step.Return?
    ensures D.Next(net, step) == net
  {
  }

  lemma HeldStays(net: D.State, net': D.State, content: map<nat, Content>, pending: map<nat, S.Pending>,
                  writers: map<nat, set<nat>>, ended: set<nat>)
    requires Held(net, content, pending, writers) && WritersStarted(net.msgs, writers) && Frame(net, net', ended)
    ensures Held(net', content, pending - ended, writers) && WritersStarted(net'.msgs, writers)
  {
  }

  /** A check that starts a handler moves its delivery on. */
  lemma BeginMoves(w: World, b: D.Step)
    requires Begins(w, b)
    ensures D.Next(w.net, b).flights == w.net.flights[b.d := w.net.flights[b.d].(phase := D.Running)]
  {
  }

  lemma BeginHolds(net: D.State, net': D.State, content: map<nat, Content>, pending: map<nat, S.Pending>,
                   writers: map<nat, set<nat>>, d: nat, row: S.Row)
    requires Held(net, content, pending, writers) && d in net.flights && net.flights[d].phase == D.Ready
    requires net'.flights == net.flights[d := net.flights[d].(phase := D.Running)] && net.flights[d].msg in content
    requires net.flights[d].attempt !in Writers(writers, net.flights[d].msg)
    ensures var c := content[net.flights[d].msg];
            && d !in pending
            && Held(net', content, pending, writers)
            && Held(net', content, pending[d := S.Pending(c.key, c.event, row)], writers)
  {
  }

  lemma BeginKeepsHeld(w: World, b: D.Step)
    requires PaidFor(w) && D.Bounded(w.net.msgs, w.net.flights) && Begins(w, b)
    ensures Held(D.Next(w.net, b), w.content, Begin(w, b.d).stock.pending, w.writers)
  {
    hide D.Next, D.AfterCheck, D.MsgBounded, Held, S.Written, S.Fits, AccountsWithin;
    var f := w.net.flights[b.d];
    assert D.FlightBounded(f, w.net.msgs[f.msg]);
    hide D.Bounded;
    BeginMoves(w, b);
    var c := w.content[f.msg];
    if c.key in w.stock.rows {
      BeginHolds(w.net, D.Next(w.net, b), w.content, w.stock.pending, w.writers, b.d, w.stock.rows[c.key]);
    } else {
      BeginHolds(w.net, D.Next(w.net, b), w.content, w.stock.pending, w.writers, b.d, S.Row(0, 0, 0));
    }
  }

  lemma BrokerKeepsJoined(w: World, b: D.Step)
    requires PaidFor(w) && D.Bounded(w.net.msgs, w.net.flights)
    ensures PaidFor(Next(w, Broker(b)))
  {
    hide D.Bounded, Within, D.Next, Held, Frame, StartsCounted;
    if !b.Return? {
      hide Begins;
      NetFrame(w.net, b);
      HeldStays(w.net, D.Next(w.net, b), w.content, w.stock.pending, w.writers, EndedBy(b));
      if Begins(w, b) {
        BeginKeepsHeld(w, b);
      }
      assert w.stock.pending - {} == w.stock.pending;
    }
  }

  /** A delivery that writes is not one of those that wrote before, nor of those still to write. */
  lemma WriteHolds(net: D.State, content: map<nat, Content>, pending: map<nat, S.Pending>,
                   writers: map<nat, set<nat>>, d: nat)
    requires Held(net, content, pending, writers) && d in pending
    requires forall x :: x in net.flights && x != d && net.flights[x].msg == net.flights[d].msg ==>
               net.flights[x].attempt != net.flights[d].attempt
    ensures var f := net.flights[d];
            && Held(net, content, pending - {d}, writers)
            && Held(net, content, pending - {d}, writers[f.msg := Writers(writers, f.msg) + {f.attempt}])
  {
  }

  lemma WriteAccounts(content: map<nat, Content>, writers: map<nat, set<nat>>, accounts: map<nat, S.Ledger>,
                      m: nat, attempt: nat, row: S.Row)
    requires AccountsWithin(content, writers, accounts) && m in content && attempt !in Writers(writers, m)
    ensures AccountsWithin(content, writers[m := Writers(writers, m) + {attempt}],
                      accounts[m := S.Enter(Account(accounts, m), content[m].event, row)])
  {
    hide Within, S.Enter;
    var before := Writers(writers, m);
    var writers' := writers[m := before + {attempt}];
    var accounts' := accounts[m := S.Enter(Account(accounts, m), content[m].event, row)];
    forall x | x in content ensures Within(Account(accounts', x), content[x].event, |Writers(writers', x)|) {
      if x == m {
        EnterStaysWithin(Account(accounts, m), content[m].event, row, |before|);
        assert |before + {attempt}| == |before| + 1;
      } else {
        assert Writers(writers', x) == Writers(writers, x) && Account(accounts', x) == Account(accounts, x);
      }
    }
  }

  /** The state after a write, field by field. */
  lemma WriteChanges(w: World, d: nat)
    requires Running(w, d) && d in w.stock.pending
    ensures var f, p, w' := w.net.flights[d], w.stock.pending[d], WriteOf(w, d);
            && w'.net == w.net && w'.content == w.content && w'.stock.pending == w.stock.pending - {d}
            && if Accepted(p, w.stock.rows) then
                 && w'.writers == w.writers[f.msg := Writers(w.writers, f.msg) + {f.attempt}]
                 && w'.accounts == w.accounts[f.msg := S.Enter(Account(w.accounts, f.msg), p.event, p.snapshot)]
                 && w'.stock.rows == w.stock.rows[p.key := S.Written(p).value]
                 && w'.stock.ledgers == w.stock.ledgers[p.key := S.Enter(S.LedgerOf(w.stock, p.key), p.event, p.snapshot)]
               else
                 && w'.writers == w.writers && w'.accounts == w.accounts
                 && w'.stock.rows == w.stock.rows && w'.stock.ledgers == w.stock.ledgers
  {
    hide S.Fits, S.Enter;
  }

  lemma WriteKeepsJoined(w: World, d: nat)
    requires PaidFor(w) && D.Bounded(w.net.msgs, w.net.flights) && Running(w, d) && d in w.stock.pending
    ensures PaidFor(WriteOf(w, d))
  {
    hide WriteOf, Accepted, AccountsWithin, D.MsgBounded, D.FlightBounded, S.Enter;
    var f, p := w.net.flights[d], w.stock.pending[d];
    assert f.attempt in w.net.msgs[f.msg].started;
    WriteHolds(w.net, w.content, w.stock.pending, w.writers, d);
    WriteAccounts(w.content, w.writers, w.accounts, f.msg, f.attempt, p.snapshot);
    WriteChanges(w, d);
    hide Held, StartsCounted, D.Bounded;
  }

  lemma FinishKeepsJoined(w: World, step: Step)
    requires PaidFor(w) && D.Bounded(w.net.msgs, w.net.flights) && step.Finish?
    ensures PaidFor(Next(w, step))
  {
    hide D.Bounded, Within, HandlerOutcome, D.Next, Held, Frame, StartsCounted;
    if NetStep(w, step).Some? {
      var b := NetStep(w, step).value;
      NetFrame(w.net, b);
      HeldStays(w.net, D.Next(w.net, b), w.content, w.stock.pending, w.writers, EndedBy(b));
    }
  }

  lemma StepKeepsJoined(w: World, step: Step)
    requires PaidFor(w) && D.Bounded(w.net.msgs, w.net.flights)
    ensures PaidFor(Next(w, step))
  {
    hide PaidFor;
    match step {
      case Broker(b) => BrokerKeepsJoined(w, b);
      case Write(d) =>
        if Running(w, d) && d in w.stock.pending {
          WriteKeepsJoined(w, d);
        }
        NextWrite(w, d);
      case Finish(_, _, _, _) => FinishKeepsJoined(w, step);
    }
  }

  // ----- how much a message can do -----

  lemma StepKeepsBounded(w: World, step: Step)
    requires D.Bounded(w.net.msgs, w.net.flights)
    ensures D.Bounded(Next(w, step).net.msgs, Next(w, step).net.flights)
  {
    hide D.Bounded, D.Next;
    if NetStep(w, step).Some? {
      D.StepKeepsBounds(w.net, NetStep(w, step).value);
    }
  }

  /** In every run, however handlers interleave, crash or panic and whatever settlements miss, the
      writes a message causes are at most the starts of its handler, and these at most its
      deliveries; what the writes grant, release, ship or restore is at most one quantity each. */
  lemma {:induction false} WritesBounded(w: World, steps: seq<Step>)
    requires PaidFor(w) && D.Bounded(w.net.msgs, w.net.flights)
    ensures var end := Run(w, steps);
            && (forall m :: m in end.net.msgs ==>
                  |Writers(end.writers, m)| <= end.net.msgs[m].starts <= end.net.msgs[m].delivered)
            && (forall m :: m in end.content ==>
                  Total(Account(end.accounts, m)) <= |Writers(end.writers, m)| * end.content[m].event.quantity)
    decreases |steps|
  {
    if steps == [] {
      D.StartsBounded(w.net, []);
      forall m | m in w.net.msgs ensures |Writers(w.writers, m)| <= w.net.msgs[m].starts {
        assert D.MsgBounded(w.net.msgs[m]);
        D.Subset(Writers(w.writers, m), w.net.msgs[m].started);
      }
    } else {
      hide PaidFor, D.Bounded, Next;
      StepKeepsJoined(w, steps[0]);
      StepKeepsBounded(w, steps[0]);
      WritesBounded(Next(w, steps[0]), steps[1..]);
      assert Run(w, steps) == Run(Next(w, steps[0]), steps[1..]);
    }
  }

  /** The deliveries are calm: no crash, no overlap, no missing count, no lost ack or term. */
  predicate AllCalm(w: World, steps: seq<Step>)
    decreases |steps|
  {
    steps == [] ||
    (&& (NetStep(w, steps[0]).Some? ==> D.Calm(w.net, NetStep(w, steps[0]).value))
     && AllCalm(Next(w, steps[0]), steps[1..]))
  }

  /** What calm runs keep. */
  ghost predicate Steady(w: World) {
    PaidFor(w) && D.AtMostFive(w.net)
  }

  /** Before anything is delivered. */
  lemma StartIsSteady(w: World)
    requires D.Fresh(w.net) && w.stock.pending == map[] && w.writers == map[] && w.accounts == map[]
    ensures Steady(w)
  {
    D.FreshIsGood(w.net);
    hide D.Bounded, D.AtMostFive;
  }

  lemma NextMovesNet(w: World, step: Step)
    ensures Next(w, step).net == if NetStep(w, step).Some? then D.Next(w.net, NetStep(w, step).value) else w.net
    ensures Next(w, step).content == w.content
  {
    hide D.Next, NetStep, S.Next;
  }

  lemma SteadyIsBounded(w: World)
    requires Steady(w)
    ensures D.Bounded(w.net.msgs, w.net.flights)
  {
    hide PaidFor;
  }

  lemma StepStaysSteady(w: World, step: Step)
    requires Steady(w) && (NetStep(w, step).Some? ==> D.Calm(w.net, NetStep(w, step).value))
    ensures Steady(Next(w, step)) && Next(w, step).content == w.content
  {
    hide Next, PaidFor, D.Bounded, D.AtMostFive, D.Next, D.Calm;
    SteadyIsBounded(w);
    StepKeepsJoined(w, step);
    NextMovesNet(w, step);
    if NetStep(w, step).Some? {
      D.StepKeepsFive(w.net, NetStep(w, step).value);
    }
  }

  lemma {:induction false} RunStaysSteady(w: World, steps: seq<Step>)
    requires Steady(w) && AllCalm(w, steps)
    ensures Steady(Run(w, steps)) && Run(w, steps).content == w.content
    decreases |steps|
  {
    hide Steady, Next;
    if steps != [] {
      StepStaysSteady(w, steps[0]);
      RunStaysSteady(Next(w, steps[0]), steps[1..]);
      assert Run(w, steps) == Run(Next(w, steps[0]), steps[1..]);
    }
  }

  lemma SteadyWrites(w: World, m: nat)
    requires Steady(w)
    ensures |Writers(w.writers, m)| <= D.MAX_DELIVERIES
    ensures m in w.content ==>
              var e, n := w.content[m].event, |Writers(w.writers, m)|;
              && (e.quantity >= 0 ==> Total(Account(w.accounts, m)) <= D.MAX_DELIVERIES * e.quantity)
              && (e.OrderPlaced? ==> Account(w.accounts, m) == S.Ledger(n * e.quantity, 0, 0, 0))
              && (!e.OrderPlaced? ==> Account(w.accounts, m).granted == 0)
  {
    hide D.FlightBounded, D.Conserved, D.Orderly, D.NakkedEarly, Held, StartsCounted, Total;
    D.FiveDeliveries(w.net, []);
    if m in w.writers {
      assert D.MsgBounded(w.net.msgs[m]);
      D.Subset(w.writers[m], D.Naturals(w.net.msgs[m].delivered));
    }
    if m in w.content && w.content[m].event.quantity >= 0 {
      AtMostTimes(|Writers(w.writers, m)|, D.MAX_DELIVERIES, w.content[m].event.quantity);
    }
  }

  /** In a calm run every message causes at most five writes, and an order reserves exactly its
      quantity with each of them: a reservation that keeps failing after its write reserves at
      most five times what was ordered. */
  lemma FiveWrites(w: World, steps: seq<Step>, m: nat)
    requires Steady(w) && AllCalm(w, steps) && m in w.content
    ensures var end := Run(w, steps);
            var e, n := w.content[m].event, |Writers(end.writers, m)|;
            && n <= D.MAX_DELIVERIES
            && (e.quantity >= 0 ==> Total(Account(end.accounts, m)) <= D.MAX_DELIVERIES * e.quantity)
            && (e.OrderPlaced? ==> Account(end.accounts, m) == S.Ledger(n * e.quantity, 0, 0, 0))
  {
    hide Steady, Run;
    RunStaysSteady(w, steps);
    SteadyWrites(Run(w, steps), m);
  }

  lemma AtMostTimes(n: nat, limit: nat, quantity: nat)
    requires n <= limit
    ensures n * quantity <= limit * quantity
  {
  }

  // ----- a key's ledger is the sum of its messages' accounts -----

  const NOTHING: S.Ledger := S.Ledger(0, 0, 0, 0)

  function Add(a: S.Ledger, b: S.Ledger): S.Ledger {
    S.Ledger(a.granted + b.granted, a.released + b.released, a.shipped + b.shipped, a.restored + b.restored)
  }

  /** What the writes of message m for key k came to. */
  function Share(content: map<nat, Content>, accounts: map<nat, S.Ledger>, k: S.Key, m: nat): S.Ledger {
    if m in content && content[m].key == k then Account(accounts, m) else NOTHING
  }

  /** What those of all messages below n came to. */
  function SumFor(content: map<nat, Content>, accounts: map<nat, S.Ledger>, k: S.Key, n: nat): S.Ledger {
    if n == 0 then NOTHING else Add(SumFor(content, accounts, k, n - 1), Share(content, accounts, k, n - 1))
  }

  lemma AddSwaps(a: S.Ledger, b: S.Ledger, c: S.Ledger)
    ensures Add(Add(a, b), c) == Add(Add(a, c), b) == Add(a, Add(b, c))
    ensures Add(a, NOTHING) == a
  {
  }

  /** One account grows by x. */
  lemma {:induction false} SumGrows(content: map<nat, Content>, accounts: map<nat, S.Ledger>, k: S.Key, n: nat,
                                    m: nat, x: S.Ledger)
    requires m in content
    ensures SumFor(content, accounts[m := Add(Account(accounts, m), x)], k, n) ==
            Add(SumFor(content, accounts, k, n), if m < n && content[m].key == k then x else NOTHING)
  {
    hide Add;
    if n > 0 {
      var accounts' := accounts[m := Add(Account(accounts, m), x)];
      var before, share := SumFor(content, accounts, k, n - 1), Share(content, accounts, k, n - 1);
      SumGrows(content, accounts, k, n - 1, m, x);
      assert SumFor(content, accounts', k, n) ==
             Add(SumFor(content, accounts', k, n - 1), Share(content, accounts', k, n - 1));
      assert Share(content, accounts', k, n - 1) == if n - 1 == m && content[m].key == k then Add(share, x) else share;
      hide SumFor, Share;
      AddSwaps(before, x, share);
      AddSwaps(before, share, x);
      AddSwaps(before, NOTHING, share);
    } else {
      AddSwaps(NOTHING, NOTHING, NOTHING);
    }
  }

  lemma EnterAdds(l: S.Ledger, e: S.Event, r: S.Row)
    ensures S.Enter(l, e, r) == Add(l, S.Enter(NOTHING, e, r))
  {
  }

  /** base is what the ledger of k held before there were accounts; n is above every message. */
  predicate Reconciled(w: World, k: S.Key, base: S.Ledger, n: nat) {
    && (forall m :: m in w.content ==> m < n)
    && S.LedgerOf(w.stock, k) == Add(base, SumFor(w.content, w.accounts, k, n))
  }

  lemma WriteReconciles(w: World, d: nat, k: S.Key, base: S.Ledger, n: nat)
    requires Reconciled(w, k, base, n) && Running(w, d) && d in w.stock.pending
    requires Held(w.net, w.content, w.stock.pending, w.writers)
    ensures Reconciled(WriteOf(w, d), k, base, n)
  {
    hide WriteOf, Accepted, S.Enter, SumFor;
    var f, p := w.net.flights[d], w.stock.pending[d];
    var x := S.Enter(NOTHING, p.event, p.snapshot);
    assert p.key == w.content[f.msg].key;
    hide Held;
    WriteChanges(w, d);
    EnterAdds(S.LedgerOf(w.stock, p.key), p.event, p.snapshot);
    EnterAdds(Account(w.accounts, f.msg), p.event, p.snapshot);
    SumGrows(w.content, w.accounts, k, n, f.msg, x);
    AddSwaps(base, SumFor(w.content, w.accounts, k, n), x);
    AddSwaps(SumFor(w.content, w.accounts, k, n), x, x);
    hide Add;
  }

  lemma OtherStepReconciles(w: World, step: Step, k: S.Key, base: S.Ledger, n: nat)
    requires Reconciled(w, k, base, n) && !step.Write?
    ensures Reconciled(Next(w, step), k, base, n)
  {
    hide Next, SumFor;
    OtherStepReads(w, step);
  }

  lemma StepReconciles(w: World, step: Step, k: S.Key, base: S.Ledger, n: nat)
    requires PaidFor(w) && Reconciled(w, k, base, n)
    ensures Reconciled(Next(w, step), k, base, n)
  {
    hide Next, WriteOf, Reconciled;
    if !step.Write? {
      OtherStepReconciles(w, step, k, base, n);
    } else {
      NextWrite(w, step.d);
      if Running(w, step.d) && step.d in w.stock.pending {
        WriteReconciles(w, step.d, k, base, n);
      }
    }
  }

  /** In every run, the ledger of a key is the sum of the accounts of its messages. */
  lemma {:induction false} LedgerIsSum(w: World, steps: seq<Step>, k: S.Key, base: S.Ledger, n: nat)
    requires PaidFor(w) && D.Bounded(w.net.msgs, w.net.flights) && Reconciled(w, k, base, n)
    ensures Reconciled(Run(w, steps), k, base, n)
    decreases |steps|
  {
    if steps != [] {
      hide PaidFor, D.Bounded, Next, Reconciled;
      StepKeepsJoined(w, steps[0]);
      StepKeepsBounded(w, steps[0]);
      StepReconciles(w, steps[0], k, base, n);
      LedgerIsSum(Next(w, steps[0]), steps[1..], k, base, n);
      assert Run(w, steps) == Run(Next(w, steps[0]), steps[1..]);
    }
  }

  // ----- the stock of a run under the broker is a run of the interleaved handlers -----

  function StockStep(w: World, step: Step): Option<S.Step> {
    match step
    case Broker(b) =>
      if b.Crash? then Some(S.Crash(b.d))
      else if Begins(w, b) then
        var c := w.content[w.net.flights[b.d].msg];
        Some(S.Read(b.d, c.key, c.event))
      else None
    case Write(d) => if Running(w, d) && d in w.stock.pending then Some(S.Write(d)) else None
    case Finish(d, _, _, _) => if NetStep(w, step).Some? then Some(S.Crash(d)) else None
  }

  function StockSteps(w: World, steps: seq<Step>): seq<S.Step>
    decreases |steps|
  {
    if steps == [] then []
    else
      (match StockStep(w, steps[0]) case None => [] case Some(step) => [step]) + StockSteps(Next(w, steps[0]), steps[1..])
  }

  lemma NextMovesStock(w: World, step: Step)
    ensures Next(w, step).stock == match StockStep(w, step) case None => w.stock case Some(s) => S.Next(w.stock, s)
  {
    hide D.Next, NetStep, S.Next, D.AfterCheck;
  }

  lemma {:induction false} StockIsRun(w: World, steps: seq<Step>)
    ensures Run(w, steps).stock == S.Run(w.stock, StockSteps(w, steps))
    decreases |steps|
  {
    if steps != [] {
      hide Next, S.Next, StockStep;
      var first := match StockStep(w, steps[0]) case None => [] case Some(step) => [step];
      NextMovesStock(w, steps[0]);
      StockIsRun(Next(w, steps[0]), steps[1..]);
      assert Run(w, steps) == Run(Next(w, steps[0]), steps[1..]);
      var rest := StockSteps(Next(w, steps[0]), steps[1..]);
      Runs.RunAppend(S.Next, w.stock, first, rest);
      if first != [] {
        assert first[1..] == [];
        assert S.Run(w.stock, first) == S.Next(w.stock, first[0]);
      }
    }
  }

  lemma TimesAtMost(n: nat, limit: nat, quantity: int)
    requires n <= limit
    ensures n * quantity <= limit * (if quantity > 0 then quantity else 0)
  {
    if quantity > 0 {
      AtMostTimes(n, limit, quantity);
    }
  }

  /** The quantity message m orders for key k. */
  function OrderedBy(content: map<nat, Content>, k: S.Key, m: nat): int {
    if m in content && content[m].key == k && content[m].event.OrderPlaced? && content[m].event.quantity > 0
    then content[m].event.quantity else 0
  }

  function Ordered(content: map<nat, Content>, k: S.Key, n: nat): int {
    if n == 0 then 0 else Ordered(content, k, n - 1) + OrderedBy(content, k, n - 1)
  }

  lemma ShareAtMost(w: World, k: S.Key, m: nat)
    requires Steady(w)
    ensures Share(w.content, w.accounts, k, m).granted <= D.MAX_DELIVERIES * OrderedBy(w.content, k, m)
  {
    hide Steady, Total, Account;
    SteadyWrites(w, m);
    if m in w.content && w.content[m].key == k && w.content[m].event.OrderPlaced? {
      TimesAtMost(|Writers(w.writers, m)|, D.MAX_DELIVERIES, w.content[m].event.quantity);
    }
  }

  lemma {:induction false} GrantedAtMost(w: World, k: S.Key, n: nat)
    requires Steady(w)
    ensures SumFor(w.content, w.accounts, k, n).granted <= D.MAX_DELIVERIES * Ordered(w.content, k, n)
  {
    hide Steady, Share, OrderedBy;
    if n > 0 {
      GrantedAtMost(w, k, n - 1);
      ShareAtMost(w, k, n - 1);
    }
  }

  // ----- what becomes of a row -----

  /** The row of k in end is that in start, changed by total and by what stale writes overwrote. */
  predicate Changed(start: S.State, end: S.State, k: S.Key, total: S.Ledger, drift: S.Drift) {
    && k in start.rows && k in end.rows
    && end.rows[k].reserved == start.rows[k].reserved + total.granted - total.released - total.shipped + drift.reserved
    && end.rows[k].onHand == start.rows[k].onHand + total.restored - total.shipped + drift.onHand
  }

  lemma RunChanges(start: S.State, steps: seq<S.Step>, k: S.Key, total: S.Ledger)
    requires S.Safe(start) && k in start.rows
    requires S.LedgerOf(S.Run(start, steps), k) == Add(S.LedgerOf(start, k), total)
    ensures Changed(start, S.Run(start, steps), k, total, S.RunDrift(start, steps, k))
  {
    S.Conservation(start, steps, k);
  }

  /** In a calm run from the start any row changes by what its messages granted, released, shipped
      and restored, up to what stale writes overwrote, and what they granted is at most five times
      what was ordered. */
  lemma RowsChange(w: World, steps: seq<Step>, k: S.Key, n: nat)
    requires Steady(w) && AllCalm(w, steps) && w.accounts == map[] && S.Safe(w.stock) && k in w.stock.rows
    requires forall m :: m in w.content ==> m < n
    ensures var end := Run(w, steps);
            var total := SumFor(end.content, end.accounts, k, n);
            && Changed(w.stock, end.stock, k, total, S.RunDrift(w.stock, StockSteps(w, steps), k))
            && total.granted <= D.MAX_DELIVERIES * Ordered(w.content, k, n)
  {
    hide Run, S.Run, PaidFor, D.Bounded, D.AtMostFive, SumFor, S.RunDrift, StockSteps, S.Safe, AllCalm, Changed, Add;
    var base, end := S.LedgerOf(w.stock, k), Run(w, steps);
    NothingYet(w.content, w.accounts, k, n);
    AddSwaps(base, base, base);
    SteadyIsBounded(w);
    LedgerIsSum(w, steps, k, base, n);
    RunStaysSteady(w, steps);
    GrantedAtMost(end, k, n);
    StockIsRun(w, steps);
    RunChanges(w.stock, StockSteps(w, steps), k, SumFor(end.content, end.accounts, k, n));
  }

  lemma {:induction false} NothingYet(content: map<nat, Content>, accounts: map<nat, S.Ledger>, k: S.Key, n: nat)
    requires accounts == map[]
    ensures SumFor(content, accounts, k, n) == NOTHING
  {
    hide Add;
    if n > 0 {
      NothingYet(content, accounts, k, n - 1);
      assert SumFor(content, accounts, k, n) ==
             Add(SumFor(content, accounts, k, n - 1), Share(content, accounts, k, n - 1));
      AddSwaps(NOTHING, NOTHING, NOTHING);
    }
  }

  /** Message m is an order for key k, and the only message for it. */
  predicate OnlyOrder(content: map<nat, Content>, m: nat, k: S.Key) {
    && m in content && content[m].key == k && content[m].event.OrderPlaced? && content[m].event.quantity >= 0
    && forall x :: x in content && x != m ==> content[x].key != k
  }

  /** The row since it was row0, after n accepted writes of an order. */
  predicate Grown(row: S.Row, row0: S.Row, n: nat, quantity: int) {
    && S.Fits(row) && row.onHand == row0.onHand && row.incoming == row0.incoming
    && row.reserved == row0.reserved + n * quantity
  }

  /** Every handler that has read the row still holds it as it is. */
  predicate UpToDate(pending: map<nat, S.Pending>, k: S.Key, row: S.Row) {
    forall d :: d in pending && pending[d].key == k ==> pending[d].snapshot == row
  }

  predicate RowGrown(w: World, m: nat, k: S.Key, row0: S.Row) {
    && OnlyOrder(w.content, m, k) && k in w.stock.rows
    && Grown(w.stock.rows[k], row0, |Writers(w.writers, m)|, w.content[m].event.quantity)
    && UpToDate(w.stock.pending, k, w.stock.rows[k])
  }

  lemma WriteGrows(p: S.Pending, row0: S.Row, n: nat)
    requires p.event.OrderPlaced? && Grown(p.snapshot, row0, n, p.event.quantity)
    requires S.Written(p).Some? && S.Fits(S.Written(p).value)
    ensures Grown(S.Written(p).value, row0, n + 1, p.event.quantity)
  {
    hide S.Wrap;
    S.WrapsFor(p.event.quantity, p.snapshot);
    assert (n + 1) * p.event.quantity == n * p.event.quantity + p.event.quantity;
  }

  /** Only one handler at a time is under way for the row. */
  lemma OneWriter(w: World, d: nat, m: nat, k: S.Key)
    requires Steady(w) && OnlyOrder(w.content, m, k) && d in w.stock.pending && w.stock.pending[d].key == k
    ensures w.net.flights[d].msg == m && w.stock.pending[d].event == w.content[m].event
    ensures w.net.flights[d].attempt !in Writers(w.writers, m)
    ensures forall x :: x in w.stock.pending && x != d ==> w.stock.pending[x].key != k
  {
    hide D.Bounded, D.Conserved, D.NakkedEarly, D.Orderly, AccountsWithin, WritersStarted;
    forall x | x in w.stock.pending && x != d ensures w.stock.pending[x].key != k {
      if w.stock.pending[x].key == k {
        D.OneFlight(w.net, x, d);
      }
    }
  }

  lemma WriteKeepsGrown(w: World, d: nat, m: nat, k: S.Key, row0: S.Row)
    requires Steady(w) && RowGrown(w, m, k, row0) && Running(w, d) && d in w.stock.pending
    ensures RowGrown(WriteOf(w, d), m, k, row0)
  {
    hide WriteOf, D.Bounded, D.AtMostFive, AccountsWithin, WritersStarted, StartsCounted, S.Fits, S.Written, S.Enter;
    var f, p := w.net.flights[d], w.stock.pending[d];
    assert p.key == w.content[f.msg].key;
    hide PaidFor;
    WriteChanges(w, d);
    if p.key == k {
      OneWriter(w, d, m, k);
      if Accepted(p, w.stock.rows) {
        var n := |Writers(w.writers, m)|;
        WriteGrows(p, row0, n);
        assert |Writers(w.writers, m) + {f.attempt}| == n + 1;
      }
    } else {
      assert f.msg != m;
    }
  }

  /** The handlers hold what they held before, or a row as it is. */
  predicate Reads(stock: S.State, stock': S.State) {
    && stock'.rows == stock.rows && stock'.ledgers == stock.ledgers
    && forall d :: d in stock'.pending ==>
         var p := stock'.pending[d];
         (d in stock.pending && p == stock.pending[d]) || (p.key in stock.rows && p.snapshot == stock.rows[p.key])
  }

  lemma DropReads(w: World, d: nat)
    ensures Reads(w.stock, Drop(w, d).stock)
  {
  }

  lemma BeginReads(w: World, d: nat)
    requires d in w.net.flights && w.net.flights[d].msg in w.content
    ensures Reads(w.stock, Begin(w, d).stock)
  {
  }

  /** Steps other than writes only read rows or forget them. */
  lemma OtherStepReads(w: World, step: Step)
    requires !step.Write?
    ensures var w' := Next(w, step);
            && w'.content == w.content && w'.writers == w.writers && w'.accounts == w.accounts
            && Reads(w.stock, w'.stock)
  {
    assert Reads(w.stock, w.stock);
    hide D.Next, NetStep, D.AfterCheck, S.Next, Reads;
    match step {
      case Broker(b) =>
        if b.Crash? {
          DropReads(w, b.d);
        }
        if Begins(w, b) {
          BeginReads(w, b.d);
        }
      case Finish(d, _, _, _) => DropReads(w, d);
    }
  }

  lemma StepKeepsGrown(w: World, step: Step, m: nat, k: S.Key, row0: S.Row)
    requires Steady(w) && RowGrown(w, m, k, row0)
    ensures RowGrown(Next(w, step), m, k, row0)
  {
    if step.Write? {
      if Running(w, step.d) && step.d in w.stock.pending {
        WriteKeepsGrown(w, step.d, m, k, row0);
      }
      hide Steady, RowGrown, WriteOf, Next;
      NextWrite(w, step.d);
    } else {
      OtherStepReads(w, step);
      hide Next, Steady, Grown, OnlyOrder;
    }
  }

  /** As long as the order is the only message for its row, a calm run grows the reservation by
      exactly its quantity per write, and so by at most five times its quantity. */
  lemma ReservedGrowth(w: World, steps: seq<Step>, m: nat, k: S.Key)
    requires Steady(w) && AllCalm(w, steps) && OnlyOrder(w.content, m, k) && k in w.stock.rows && S.Fits(w.stock.rows[k])
    requires Writers(w.writers, m) == {} && UpToDate(w.stock.pending, k, w.stock.rows[k])
    ensures k in Run(w, steps).stock.rows
    ensures var end := Run(w, steps);
            var row, grown, q := w.stock.rows[k], end.stock.rows[k], w.content[m].event.quantity;
            && grown.onHand == row.onHand && grown.incoming == row.incoming
            && grown.reserved == row.reserved + |Writers(end.writers, m)| * q <= row.reserved + D.MAX_DELIVERIES * q
  {
    hide Steady, Run;
    RunKeepsGrown(w, steps, m, k, w.stock.rows[k]);
    RunStaysSteady(w, steps);
    SteadyWrites(Run(w, steps), m);
    AtMostTimes(|Writers(Run(w, steps).writers, m)|, D.MAX_DELIVERIES, w.content[m].event.quantity);
  }

  lemma {:induction false} RunKeepsGrown(w: World, steps: seq<Step>, m: nat, k: S.Key, row0: S.Row)
    requires Steady(w) && AllCalm(w, steps) && RowGrown(w, m, k, row0)
    ensures RowGrown(Run(w, steps), m, k, row0)
    decreases |steps|
  {
    hide Steady, Next, RowGrown;
    if steps != [] {
      StepStaysSteady(w, steps[0]);
      StepKeepsGrown(w, steps[0], m, k, row0);
      RunKeepsGrown(Next(w, steps[0]), steps[1..], m, k, row0);
      assert Run(w, steps) == Run(Next(w, steps[0]), steps[1..]);
    }
  }

  // ----- the bound is reached -----

  /** A delivery of message m whose handler runs to its first publication, which is refused. */
  function RefusedRound(m: nat): seq<Step> {
    OpeningSteps(m) + ClosingSteps()
  }

  function OpeningSteps(m: nat): seq<Step> {
    [Broker(D.Deliver(0, m)), Broker(D.Check(0, true))]
  }

  function ClosingSteps(): seq<Step> {
    [Write(0), Finish(0, false, false, None), Broker(D.Settle(0, true, true))]
  }

  function RefusedRounds(m: nat, n: nat): seq<Step> {
    if n == 0 then [] else RefusedRounds(m, n - 1) + RefusedRound(m)
  }

  /** Message m is an order that can be delivered, and nothing of it is under way. */
  predicate Deliverable(w: World, m: nat) {
    && m in w.content && w.content[m].event.OrderPlaced? && w.content[m].key in w.stock.rows
    && m in w.net.msgs && !D.Closed(w.net.msgs[m]) && w.net.msgs[m].id !in w.net.marked
    && 0 !in w.net.flights && 0 !in w.stock.pending
    && forall d :: d in w.net.flights ==> w.net.flights[d].msg != m
  }

  /** Its handler has read the row. */
  predicate Underway(w: World, m: nat) {
    && m in w.content && w.content[m].event.OrderPlaced?
    && m in w.net.msgs && !D.Closed(w.net.msgs[m]) && w.net.msgs[m].delivered <= D.MAX_DELIVERIES
    && 0 in w.net.flights && w.net.flights[0] == D.Flight(m, w.net.msgs[m].delivered, D.Running)
    && 0 in w.stock.pending
  }

  /** A delivery starts its handler. */
  lemma NetStart(net: D.State, m: nat)
    requires m in net.msgs && !D.Closed(net.msgs[m]) && net.msgs[m].id !in net.marked && 0 !in net.flights
    ensures var n1 := D.Next(net, D.Deliver(0, m));
            var n2 := D.Next(n1, D.Check(0, true));
            var msg := net.msgs[m].(delivered := net.msgs[m].delivered + 1);
            && n1 == net.(flights := net.flights[0 := D.Flight(m, msg.delivered, D.Ready)], msgs := net.msgs[m := msg])
            && n2.flights == net.flights[0 := D.Flight(m, msg.delivered, D.Running)]
            && n2.msgs == net.msgs[m := D.Checked(msg, msg.delivered, D.Running)] && n2.marked == net.marked
  {
  }

  /** The handler fails, and the delivery is settled. */
  lemma NetEnd(net: D.State, m: nat)
    requires m in net.msgs && !D.Closed(net.msgs[m]) && net.msgs[m].delivered <= D.MAX_DELIVERIES
    requires 0 in net.flights && net.flights[0] == D.Flight(m, net.msgs[m].delivered, D.Running)
    ensures var n3 := D.Next(net, D.Return(0, D.Fails));
            var n4 := D.Next(n3, D.Settle(0, true, true));
            && n3 == net.(flights := net.flights[0 := D.Flight(m, net.msgs[m].delivered, D.Finished(D.Fails))])
            && n4.flights == net.flights - {0} && n4.marked == net.marked && n4.msgs.Keys == net.msgs.Keys
            && n4.msgs[m].id == net.msgs[m].id && n4.msgs[m].delivered == net.msgs[m].delivered
            && D.Closed(n4.msgs[m]) == (net.msgs[m].delivered == D.MAX_DELIVERIES)
  {
    assert D.Settlement(D.Fails, Some(net.msgs[m].delivered)) ==
           if net.msgs[m].delivered == D.MAX_DELIVERIES then [D.DeadLetter, D.Term] else [D.Nak];
  }

  /** The stock after such a round. */
  lemma StockRound(stock: S.State, k: S.Key, e: S.Event)
    requires k in stock.rows && 0 !in stock.pending
    ensures var s1 := S.Next(stock, S.Read(0, k, e));
            var s2 := S.Next(s1, S.Write(0));
            && s1.rows == stock.rows && s1.pending == stock.pending[0 := S.Pending(k, e, stock.rows[k])]
            && s2.pending == stock.pending && s2.rows == H.Handle(stock.rows, k, e, [false, false]).rows
  {
    H.HandleIsReadThenWrite(stock, k, e, [false, false]);
    var s1 := S.Next(stock, S.Read(0, k, e));
    assert s1.pending - {0} == stock.pending;
    hide S.Written, H.Handle;
  }

  lemma RoundOpens(w: World, m: nat)
    requires Deliverable(w, m) && w.net.msgs[m].delivered < D.MAX_DELIVERIES
    ensures AllCalm(w, OpeningSteps(m))
    ensures var c, w2 := w.content[m], Run(w, OpeningSteps(m));
            && Underway(w2, m)
            && w2.content == w.content && w2.stock == S.Next(w.stock, S.Read(0, c.key, c.event))
            && w2.net.flights - {0} == w.net.flights && w2.net.marked == w.net.marked
            && w2.net.msgs[m].id == w.net.msgs[m].id && w2.net.msgs[m].delivered == w.net.msgs[m].delivered + 1
  {
    hide D.Next;
    var c, steps := w.content[m], OpeningSteps(m);
    NetStart(w.net, m);
    var w1 := Next(w, steps[0]);
    assert w1 == w.(net := D.Next(w.net, D.Deliver(0, m)));
    var w2 := Next(w1, steps[1]);
    assert w2.stock == S.Next(w.stock, S.Read(0, c.key, c.event)) && w2.net == D.Next(w1.net, D.Check(0, true));
    hide Next, S.Next;
    assert steps[1..] == [steps[1]] && steps[1..][1..] == [];
    assert AllCalm(w1, steps[1..]);
    assert Run(w, steps) == Run(w1, steps[1..]) == Run(w2, []) == w2;
  }

  lemma RoundWrites(w: World, m: nat)
    requires Underway(w, m)
    ensures var w3 := Next(w, Write(0));
            var w4 := Next(w3, Finish(0, false, false, None));
            && w3.net == w.net && w3.content == w4.content == w.content
            && w4.net == D.Next(w.net, D.Return(0, D.Fails))
            && w4.stock.rows == S.Next(w.stock, S.Write(0)).rows && w4.stock.pending == w.stock.pending - {0}
            && NetStep(w, Write(0)) == None && NetStep(w3, Finish(0, false, false, None)) == Some(D.Return(0, D.Fails))
  {
    hide D.Next, S.Fits, S.Written, S.Enter;
    NextWrite(w, 0);
    WriteChanges(w, 0);
    var w3 := WriteOf(w, 0);
    assert Running(w3, 0) && 0 in w3.told && 0 !in w3.stock.pending;
    hide WriteOf;
    assert HandlerOutcome(w3, 0, [false, false]) == D.Fails;
    assert w3.stock.pending - {0} == w3.stock.pending;
  }

  lemma RoundCloses(w: World, m: nat)
    requires Underway(w, m)
    ensures AllCalm(w, ClosingSteps())
    ensures var end := Run(w, ClosingSteps());
            && end.content == w.content && end.stock.pending == w.stock.pending - {0}
            && end.stock.rows == S.Next(w.stock, S.Write(0)).rows
            && end.net.flights == w.net.flights - {0} && end.net.marked == w.net.marked
            && m in end.net.msgs && end.net.msgs[m].id == w.net.msgs[m].id
            && end.net.msgs[m].delivered == w.net.msgs[m].delivered
            && D.Closed(end.net.msgs[m]) == (w.net.msgs[m].delivered == D.MAX_DELIVERIES)
  {
    hide D.Next, S.Next;
    var steps := ClosingSteps();
    RoundWrites(w, m);
    NetEnd(w.net, m);
    var w3 := Next(w, steps[0]);
    var w4 := Next(w3, steps[1]);
    var w5 := Next(w4, steps[2]);
    assert w5 == w4.(net := D.Next(w4.net, D.Settle(0, true, true)));
    hide Next;
    assert steps[2..] == [steps[2]] && steps[1..][1..] == steps[2..] && steps[2..][1..] == [];
    assert AllCalm(w4, steps[2..]);
    assert AllCalm(w3, steps[1..]);
    assert Run(w, steps) == Run(w3, steps[1..]) == Run(w4, steps[2..]) == Run(w5, []) == w5;
  }

  lemma {:induction false} CalmAppend(w: World, a: seq<Step>, b: seq<Step>)
    requires AllCalm(w, a) && AllCalm(Run(w, a), b)
    ensures AllCalm(w, a + b)
    decreases |a|
  {
    hide Next;
    if a == [] {
      assert a + b == b;
    } else {
      assert Run(w, a) == Run(Next(w, a[0]), a[1..]);
      CalmAppend(Next(w, a[0]), a[1..], b);
      assert (a + b)[1..] == a[1..] + b;
    }
  }

  /** Such a round is a calm run, and does to the stock what handling the order does. */
  lemma RoundHandles(w: World, m: nat)
    requires Deliverable(w, m) && w.net.msgs[m].delivered < D.MAX_DELIVERIES
    ensures AllCalm(w, RefusedRound(m))
    ensures var end, c := Run(w, RefusedRound(m)), w.content[m];
            && end.stock.rows == H.Handle(w.stock.rows, c.key, c.event, [false, false]).rows
            && end.content == w.content && m in end.net.msgs
            && end.net.msgs[m].delivered == w.net.msgs[m].delivered + 1
            && D.Closed(end.net.msgs[m]) == (end.net.msgs[m].delivered == D.MAX_DELIVERIES)
            && (end.net.msgs[m].delivered < D.MAX_DELIVERIES ==> Deliverable(end, m))
  {
    hide Next, D.Next, S.Next, AllCalm, H.Handle;
    var c, w2 := w.content[m], Run(w, OpeningSteps(m));
    RoundOpens(w, m);
    RoundCloses(w2, m);
    CalmAppend(w, OpeningSteps(m), ClosingSteps());
    Runs.RunAppend(Next, w, OpeningSteps(m), ClosingSteps());
    StockRound(w.stock, c.key, c.event);
    H.HandleKeepsKeys(w.stock.rows, c.key, c.event, [false, false]);
  }

  /** Five rounds are five handlings: the bound on reservations is reached. */
  lemma {:induction false} RoundsAreRetries(w: World, m: nat, n: nat)
    requires Deliverable(w, m) && w.net.msgs[m].delivered + n <= D.MAX_DELIVERIES
    ensures AllCalm(w, RefusedRounds(m, n))
    ensures var end, c := Run(w, RefusedRounds(m, n)), w.content[m];
            && end.stock.rows == H.Retried(w.stock.rows, c.key, c.event, n)
            && end.content == w.content && m in end.net.msgs
            && end.net.msgs[m].delivered == w.net.msgs[m].delivered + n
            && (n > 0 ==> D.Closed(end.net.msgs[m]) == (end.net.msgs[m].delivered == D.MAX_DELIVERIES))
            && (end.net.msgs[m].delivered < D.MAX_DELIVERIES || n == 0 ==> Deliverable(end, m))
    decreases n
  {
    assert AllCalm(w, []);
    hide Next, AllCalm, Deliverable, H.Handle;
    if n > 0 {
      var before := RefusedRounds(m, n - 1);
      RoundsAreRetries(w, m, n - 1);
      RoundHandles(Run(w, before), m);
      CalmAppend(w, before, RefusedRound(m));
      Runs.RunAppend(Next, w, before, RefusedRound(m));
    }
  }

  /** The bound is reached: an order whose first publication is refused five times, with stock for
      five of it, reserves five times its quantity in a calm run that ends with its term. */
  lemma FiveReservations(w: World, m: nat)
    requires Deliverable(w, m) && w.net.msgs[m].delivered == 0
    requires var c := w.content[m];
             && c.event.quantity >= 0 && S.Fits(w.stock.rows[c.key])
             && D.MAX_DELIVERIES * c.event.quantity <= w.stock.rows[c.key].onHand - w.stock.rows[c.key].reserved
    ensures var end, c := Run(w, RefusedRounds(m, D.MAX_DELIVERIES)), w.content[m];
            var row := w.stock.rows[c.key];
            && AllCalm(w, RefusedRounds(m, D.MAX_DELIVERIES)) && m in end.net.msgs && D.Closed(end.net.msgs[m])
            && end.stock.rows == w.stock.rows[c.key := row.(reserved := row.reserved + D.MAX_DELIVERIES * c.event.quantity)]
  {
    hide Next, AllCalm, RefusedRounds, H.Retried;
    RoundsAreRetries(w, m, D.MAX_DELIVERIES);
    H.RetriesReserveAgain(w.stock.rows, w.content[m].key, w.content[m].event.quantity, D.MAX_DELIVERIES);
  }
}
