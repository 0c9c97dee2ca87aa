/** One delivery from the broker to its settlement, with the handler run in between: what becomes of
    the message and of the stock when nothing interferes. */
module WholeDeliveries {
  import opened Bytes
  import opened Redelivery
  import Runs
  import D = Delivery
  import S = Stock
  import H = Handlers

  /** Message m can be delivered, and the labels for its delivery and handler are free. */
  predicate CanArrive(w: World, m: nat) {
    && m in w.content && m in w.net.msgs && !D.Closed(w.net.msgs[m])
    && 0 !in w.net.flights && 0 !in w.stock.pending
  }

  /** What the outside decides about a delivery: whether the check of the mark works, which
      publications are taken, whether the mark is set and reported so, whether the delivery count can
      be read, and whether the settlement reaches the broker. */
  datatype Luck = Luck(seenWorks: bool, first: bool, second: bool, stored: bool, markOk: bool, metadata: bool,
                       reached: bool)

  function HandlerSteps(m: nat, luck: Luck): seq<Step> {
    [Broker(D.Deliver(0, m)), Broker(D.Check(0, luck.seenWorks)), Write(0), Finish(0, luck.first, luck.second, None)]
  }

  function SettlingSteps(luck: Luck): seq<Step> {
    [Broker(D.Mark(0, luck.stored, luck.markOk)), Broker(D.Settle(0, luck.metadata, luck.reached))]
  }

  function WholeDelivery(m: nat, luck: Luck): seq<Step> {
    HandlerSteps(m, luck) + SettlingSteps(luck)
  }

  /** The broker's state once the message has arrived. */
  function Arrived(w: World, m: nat): D.State
    requires CanArrive(w, m)
  {
    var msg := w.net.msgs[m].(delivered := w.net.msgs[m].delivered + 1);
    w.net.(flights := w.net.flights[0 := D.Flight(m, msg.delivered, D.Ready)], msgs := w.net.msgs[m := msg])
  }

  /** Its message's id is marked, and the store says so. */
  predicate Known(w: World, m: nat, seenWorks: bool)
    requires CanArrive(w, m)
  {
    var id := w.net.msgs[m].id;
    id != "" && seenWorks && id in w.net.marked
  }

  /** What handling the message does to the rows it finds. */
  function Effect(w: World, m: nat, luck: Luck): H.HandlerEffect
    requires m in w.content
  {
    H.Handle(w.stock.rows, w.content[m].key, w.content[m].event, [luck.first, luck.second])
  }

  function Returned(w: World, m: nat, luck: Luck): D.Outcome
    requires m in w.content
  {
    if Effect(w, m, luck).failed then D.Fails else D.Succeeds
  }

  // ----- the handler -----

  /** The handler of message m has been started on the stock of w. */
  predicate HandlerStarted(w: World, w2: World, m: nat)
    requires m in w.content
  {
    var c := w.content[m];
    && w2.content == w.content && w2.stock == S.Next(w.stock, S.Read(0, c.key, c.event))
    && 0 in w2.net.flights && w2.net.flights[0].msg == m && w2.net.flights[0].phase == D.Running && m in w2.net.msgs
    && (c.key !in w.stock.rows ==> 0 in w2.told && w2.told[0] == None)
  }

  /** Its write does to the rows what handling does, and leaves it knowing what to publish. */
  lemma HandlerWrites(w: World, w2: World, m: nat, luck: Luck)
    requires CanArrive(w, m) && HandlerStarted(w, w2, m)
    ensures var w3 := Next(w2, Write(0));
            && w3.net == w2.net && w3.content == w2.content && 0 !in w3.stock.pending && 0 in w3.told
            && w3.stock.rows == Effect(w, m, luck).rows
            && Running(w3, 0) && HandlerOutcome(w3, 0, [luck.first, luck.second]) == Returned(w, m, luck)
  {
    hide S.Written, S.Fits, H.Notices, H.Taken, S.Apply, S.Decide;
    var c := w.content[m];
    H.HandleIsReadThenWrite(w.stock, c.key, c.event, [luck.first, luck.second]);
    NextWrite(w2, 0);
    if c.key in w.stock.rows {
      var row := w.stock.rows[c.key];
      assert w2.stock.pending[0] == S.Pending(c.key, c.event, row);
      WriteChanges(w2, 0);
      WrittenIs(c.key, c.event, row);
    }
  }

  lemma WrittenIs(k: S.Key, e: S.Event, row: S.Row)
    ensures S.Written(S.Pending(k, e, row)) ==
            match S.Decide(e, row) case None => None case Some(patch) => Some(S.Apply(row, patch))
  {
  }

  /** A step of the broker that neither ends nor starts a handler moves the deliveries alone. */
  lemma OnlyNetMoves(w: World, b: D.Step)
    requires b.Deliver? || b.Mark? || b.Settle?
    ensures Next(w, Broker(b)) == w.(net := D.Next(w.net, b))
  {
    hide D.Next;
  }

  lemma ArrivesFirst(w: World, m: nat)
    requires CanArrive(w, m)
    ensures Next(w, Broker(D.Deliver(0, m))) == w.(net := Arrived(w, m))
  {
    OnlyNetMoves(w, D.Deliver(0, m));
    hide Next;
  }

  /** The check starts the handler, unless the message is known. */
  lemma CheckStarts(w: World, m: nat, seenWorks: bool)
    requires CanArrive(w, m)
    ensures var w2 := Next(w.(net := Arrived(w, m)), Broker(D.Check(0, seenWorks)));
            && w2.net == D.Next(Arrived(w, m), D.Check(0, seenWorks))
            && w2.content == w.content
            && (!Known(w, m, seenWorks) ==> HandlerStarted(w, w2, m))
            && (Known(w, m, seenWorks) ==>
                  && w2.stock == w.stock && 0 in w2.net.flights && m in w2.net.msgs
                  && w2.net.flights[0].msg == m && w2.net.flights[0].phase == D.Finished(D.Succeeds))
  {
    hide S.Next;
  }

  /** From its arrival to its return: the rows change as by handling, unless the message is known, and
      the delivery goes on with the outcome of that. */
  lemma HandlerRuns(w: World, m: nat, luck: Luck)
    requires CanArrive(w, m)
    ensures var w4 := Run(w, HandlerSteps(m, luck));
            && w4.net == D.Next(D.Next(Arrived(w, m), D.Check(0, luck.seenWorks)), D.Return(0, Returned(w, m, luck)))
            && w4.content == w.content
            && w4.stock.rows == if Known(w, m, luck.seenWorks) then w.stock.rows else Effect(w, m, luck).rows
  {
    hide D.Next, S.Next, Effect, HandlerOutcome;
    var steps, w1 := HandlerSteps(m, luck), w.(net := Arrived(w, m));
    ArrivesFirst(w, m);
    CheckStarts(w, m, luck.seenWorks);
    var w2 := Next(w1, steps[1]);
    if Known(w, m, luck.seenWorks) {
      KnownRests(w2, m, luck, Returned(w, m, luck));
    } else {
      HandlerWrites(w, w2, m, luck);
      FinishReturns(Next(w2, steps[2]), luck, Returned(w, m, luck));
    }
    Runs.RunFour(Next, w, steps);
    hide Next;
  }

  lemma FinishReturns(w3: World, luck: Luck, outcome: D.Outcome)
    requires Running(w3, 0) && 0 in w3.told && 0 !in w3.stock.pending
    requires HandlerOutcome(w3, 0, [luck.first, luck.second]) == outcome
    ensures var w4 := Next(w3, Finish(0, luck.first, luck.second, None));
            w4.net == D.Next(w3.net, D.Return(0, outcome)) && w4.content == w3.content && w4.stock.rows == w3.stock.rows
  {
    hide D.Next, HandlerOutcome;
  }

  lemma KnownRests(w2: World, m: nat, luck: Luck, outcome: D.Outcome)
    requires 0 in w2.net.flights && w2.net.flights[0].msg == m && w2.net.flights[0].phase == D.Finished(D.Succeeds)
    ensures Next(Next(w2, Write(0)), Finish(0, luck.first, luck.second, None)) == w2
    ensures D.Next(w2.net, D.Return(0, outcome)) == w2.net
  {
    NextWrite(w2, 0);
  }

  /** One whole delivery is one run of the callback, with the outcome of handling the message, and
      changes the rows as handling does; a message that is known leaves them alone. */
  lemma DeliveryIsHandling(w: World, m: nat, luck: Luck)
    requires CanArrive(w, m)
    ensures var end := Run(w, WholeDelivery(m, luck));
            && end.net == D.Run(Arrived(w, m),
                                D.Callback(0, luck.seenWorks, Returned(w, m, luck), luck.stored, luck.markOk,
                                           luck.metadata, luck.reached))
            && end.stock.rows == if Known(w, m, luck.seenWorks) then w.stock.rows else Effect(w, m, luck).rows
  {
    HandlerRuns(w, m, luck);
    var w4, steps := Run(w, HandlerSteps(m, luck)), SettlingSteps(luck);
    var mark, settle := D.Mark(0, luck.stored, luck.markOk), D.Settle(0, luck.metadata, luck.reached);
    OnlyNetMoves(w4, mark);
    var w5 := Next(w4, steps[0]);
    OnlyNetMoves(w5, settle);
    var w6 := Next(w5, steps[1]);
    assert steps[1..] == [steps[1]] && steps[1..][1..] == [];
    assert Run(w4, steps) == Run(w5, steps[1..]) == Run(w6, []) == w6;
    Runs.RunAppend(Next, w, HandlerSteps(m, luck), steps);
    hide Next, D.Next, Effect, Run;
    Runs.RunFour(D.Next, Arrived(w, m),
                 D.Callback(0, luck.seenWorks, Returned(w, m, luck), luck.stored, luck.markOk, luck.metadata,
                            luck.reached));
  }

  /** The message as the broker has it once it has arrived. */
  function MessageOf(w: World, m: nat): D.Msg
    requires CanArrive(w, m)
  {
    w.net.msgs[m].(delivered := w.net.msgs[m].delivered + 1)
  }

  lemma ArrivedIs(w: World, m: nat)
    requires CanArrive(w, m)
    ensures var net := Arrived(w, m);
            && D.Received(net, 0) && net.marked == w.net.marked && net.flights[0].msg == m
            && net.flights[0].attempt == MessageOf(w, m).delivered && net.msgs[m] == MessageOf(w, m)
    ensures forall works :: D.SeenBefore(Arrived(w, m), 0, works) == Known(w, m, works)
  {
  }

  /** So when the store works, a message that was not known is acked if handling it does not fail,
      with its rows changed as handling says and its id marked from then on. */
  lemma HandledIsAcked(w: World, m: nat, luck: Luck)
    requires CanArrive(w, m) && !Known(w, m, luck.seenWorks) && luck.stored && luck.markOk
    requires !Effect(w, m, luck).failed
    ensures var end, msg := Run(w, WholeDelivery(m, luck)), MessageOf(w, m);
            && end.stock.rows == Effect(w, m, luck).rows
            && D.LeavesBehind(Arrived(w, m), end.net, 0, if msg.id == "" then w.net.marked else w.net.marked + {msg.id},
                              D.Done(D.Started(msg, msg.delivered).(acked := true), luck.reached))
  {
    hide Run, D.Run, Effect, D.Callback, Arrived, D.LeavesBehind, D.Received, D.SeenBefore, D.Done;
    DeliveryIsHandling(w, m, luck);
    ArrivedIs(w, m);
    D.SuccessIsAcked(Arrived(w, m), 0, luck.seenWorks, luck.metadata, luck.reached);
  }

  /** And if handling it fails, it is given back or, from the fifth known delivery on, dead-lettered
      and terminated, not marked, and with its rows changed as handling says all the same. */
  lemma FailedIsGivenBack(w: World, m: nat, luck: Luck)
    requires CanArrive(w, m) && !Known(w, m, luck.seenWorks) && (luck.markOk ==> luck.stored)
    requires Effect(w, m, luck).failed
    ensures var end, msg := Run(w, WholeDelivery(m, luck)), D.Started(MessageOf(w, m), MessageOf(w, m).delivered);
            && end.stock.rows == Effect(w, m, luck).rows
            && D.LeavesBehind(Arrived(w, m), end.net, 0, w.net.marked,
                              if luck.metadata && msg.delivered >= 5
                              then D.Done(msg.(terms := msg.terms + 1, deadLettered := msg.deadLettered + 1),
                                          luck.reached)
                              else msg.(naks := msg.naks + 1, nakked := msg.nakked + {msg.delivered}))
  {
    hide Run, D.Run, Effect, D.Callback, Arrived, D.LeavesBehind, D.Received, D.SeenBefore, D.Done;
    DeliveryIsHandling(w, m, luck);
    ArrivedIs(w, m);
    D.FailureIsGivenBack(Arrived(w, m), 0, luck.seenWorks, D.Fails, luck.stored, luck.markOk, luck.metadata,
                         luck.reached);
  }

  /** A message that was known is acked, and nothing is handled. */
  lemma KnownIsNotHandled(w: World, m: nat, luck: Luck)
    requires CanArrive(w, m) && Known(w, m, luck.seenWorks) && (luck.markOk ==> luck.stored)
    ensures var end := Run(w, WholeDelivery(m, luck));
            && end.stock.rows == w.stock.rows
            && D.LeavesBehind(Arrived(w, m), end.net, 0, w.net.marked,
                              D.Done(MessageOf(w, m).(acked := true), luck.reached))
  {
    hide Run, D.Run, Effect, D.Callback, Arrived, D.LeavesBehind, D.Received, D.SeenBefore, D.Done;
    DeliveryIsHandling(w, m, luck);
    ArrivedIs(w, m);
    D.KnownIsAcked(Arrived(w, m), 0, Returned(w, m, luck), luck.stored, luck.markOk, luck.metadata, luck.reached);
  }
}
