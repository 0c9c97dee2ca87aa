/** The stock row and the four handlers that write it, as read, compute and write steps of
    processes that may interleave in any order. */
module Stock {
  import opened Bytes
  import Runs

  const MAX_INTEGER := 0x7FFF_FFFF
  const TWO_63 := 0x8000_0000_0000_0000
  const TWO_64 := 0x1_0000_0000_0000_0000

  type int64 = x: int | -TWO_63 <= x < TWO_63

  /** Go's 64-bit addition and subtraction wrap around. */
  function Wrap(x: int): int64 {
    (x + TWO_63) % TWO_64 - TWO_63
  }

  datatype Key = Key(location: string, sku: string)

  datatype Row = Row(onHand: int64, reserved: int64, incoming: int64)

  /** The table's CHECKs, and the range of its INTEGER columns. */
  predicate Fits(r: Row) {
    && 0 <= r.onHand <= MAX_INTEGER
    && 0 <= r.reserved <= MAX_INTEGER
    && 0 <= r.incoming <= MAX_INTEGER
    && r.reserved <= r.onHand
  }

  datatype Event =
    | OrderPlaced(quantity: int64)
    | OrderCancelled(quantity: int64)
    | OrderShipped(quantity: int64)
    | ShipmentCancelled(quantity: int64)

  /** UpdatedInventory: the fields to overwrite. */
  datatype Patch = Patch(onHand: Option<int64>, reserved: Option<int64>, incoming: Option<int64>)

  function Apply(r: Row, p: Patch): Row {
    Row(if p.onHand.Some? then p.onHand.value else r.onHand,
        if p.reserved.Some? then p.reserved.value else r.reserved,
        if p.incoming.Some? then p.incoming.value else r.incoming)
  }

  function Min(a: int64, b: int64): int64 {
    if a > b then b else a
  }

  /** What a handler decides from the row it read: the patch to write, or no write. */
  function Decide(e: Event, r: Row): Option<Patch> {
    match e
    case OrderPlaced(q) =>
      if Wrap(r.onHand - r.reserved) < q then None
      else Some(Patch(None, Some(Wrap(r.reserved + q)), None))
    case OrderCancelled(q) =>
      if r.reserved == 0 then None
      else Some(Patch(None, Some(Wrap(r.reserved - Min(q, r.reserved))), None))
    case OrderShipped(q) =>
      if r.reserved == 0 then None
      else
        var ship := Min(Min(q, r.reserved), r.onHand);
        Some(Patch(Some(Wrap(r.onHand - ship)), Some(Wrap(r.reserved - ship)), None))
    case ShipmentCancelled(q) =>
      if q <= 0 then None
      else Some(Patch(Some(Wrap(r.onHand + q)), None, None))
  }

  /** Exactly when the table accepts what a handler writes, for every quantity a message can
      carry. */
  predicate Acceptable(e: Event, r: Row) {
    match e
    case OrderPlaced(q) => r.reserved + q >= 0
    case OrderCancelled(q) => r.reserved - q <= r.onHand
    case OrderShipped(q) => r.onHand - q <= MAX_INTEGER
    case ShipmentCancelled(q) => r.onHand + q <= MAX_INTEGER
  }

  /** Go's 64 bits, in numbers: the one value of that width that differs by whole turns. */
  lemma WrapsAround(x: int, turns: int)
    ensures -9223372036854775808 <= Wrap(x) <= 9223372036854775807
    ensures -9223372036854775808 <= x + turns * 18446744073709551616 <= 9223372036854775807 ==>
              Wrap(x) == x + turns * 18446744073709551616
  {
  }

  lemma WrapIs(x: int)
    ensures -TWO_63 <= x < TWO_63 ==> Wrap(x) == x
    ensures TWO_63 <= x < TWO_63 + TWO_64 ==> Wrap(x) == x - TWO_64
  {
  }

  lemma WrapsFor(q: int64, r: Row)
    requires Fits(r)
    ensures Wrap(r.onHand - r.reserved) == r.onHand - r.reserved
    ensures Wrap(r.reserved + q) == if r.reserved + q < TWO_63 then r.reserved + q else r.reserved + q - TWO_64
    ensures Wrap(r.onHand + q) == if r.onHand + q < TWO_63 then r.onHand + q else r.onHand + q - TWO_64
    ensures Wrap(r.reserved - q) == if r.reserved - q < TWO_63 then r.reserved - q else r.reserved - q - TWO_64
    ensures Wrap(r.onHand - q) == if r.onHand - q < TWO_63 then r.onHand - q else r.onHand - q - TWO_64
  {
    hide Wrap;
    WrapIs(r.onHand - r.reserved);
    WrapIs(r.reserved + q);
    WrapIs(r.onHand + q);
    WrapIs(r.reserved - q);
    WrapIs(r.onHand - q);
  }

  lemma WriteAccepted(e: Event, r: Row)
    requires Fits(r) && Decide(e, r).Some?
    ensures Fits(Apply(r, Decide(e, r).value)) <==> Acceptable(e, r)
  {
    hide Wrap;
    WrapsFor(e.quantity, r);
    WrapsFor(Min(e.quantity, r.reserved), r);
    WrapsFor(Min(Min(e.quantity, r.reserved), r.onHand), r);
  }

  /** Orders placed, cancelled and shipped with quantities that are not negative never write
      what the table rejects. */
  lemma OrdersAccepted(e: Event, r: Row)
    requires Fits(r) && Decide(e, r).Some?
    requires e.quantity >= 0 && !e.ShipmentCancelled?
    ensures Fits(Apply(r, Decide(e, r).value))
  {
    WriteAccepted(e, r);
  }

  // ----- interleaved handlers -----

  /** A handler that has read a row and not yet written. */
  datatype Pending = Pending(key: Key, event: Event, snapshot: Row)

  /** What was granted, released, shipped and restored by the writes that took effect. */
  datatype Ledger = Ledger(granted: int, released: int, shipped: int, restored: int)

  datatype State = State(rows: map<Key, Row>, pending: map<nat, Pending>, ledgers: map<Key, Ledger>)

  /** Read starts a handler, Write finishes one, Crash loses one before its write. */
  datatype Step = Read(pid: nat, key: Key, event: Event) | Write(pid: nat) | Crash(pid: nat)

  function LedgerOf(s: State, k: Key): Ledger {
    if k in s.ledgers then s.ledgers[k] else Ledger(0, 0, 0, 0)
  }

  /** The entry for one write, with the quantities as the handlers clamp them. */
  function Enter(l: Ledger, e: Event, r: Row): Ledger {
    match e
    case OrderPlaced(q) => l.(granted := l.granted + q)
    case OrderCancelled(q) => l.(released := l.released + Min(q, r.reserved))
    case OrderShipped(q) => l.(shipped := l.shipped + Min(Min(q, r.reserved), r.onHand))
    case ShipmentCancelled(q) => l.(restored := l.restored + q)
  }

  /** The row a pending handler would write, if any. */
  function Written(p: Pending): Option<Row> {
    match Decide(p.event, p.snapshot)
    case None => None
    case Some(patch) => Some(Apply(p.snapshot, patch))
  }

  /** One UPDATE writes the whole row or, rejected by the table, nothing. */
  function Next(s: State, step: Step): State {
    match step
    case Read(pid, key, event) =>
      if key in s.rows && pid !in s.pending then s.(pending := s.pending[pid := Pending(key, event, s.rows[key])])
      else s
    case Crash(pid) =>
      s.(pending := s.pending - {pid})
    case Write(pid) =>
      if pid !in s.pending then s
      else
        var p := s.pending[pid];
        var done := s.(pending := s.pending - {pid});
        match Written(p)
        case None => done
        case Some(row) =>
          if p.key in s.rows && Fits(row) then
            done.(rows := s.rows[p.key := row],
                  ledgers := s.ledgers[p.key := Enter(LedgerOf(s, p.key), p.event, p.snapshot)])
          else done
  }

  function Run(s: State, steps: seq<Step>): State {
    Runs.Run(Next, s, steps)
  }

  /** Every row, and every row a handler still holds, satisfies the table's CHECKs. */
  ghost predicate Safe(s: State) {
    && (forall k :: k in s.rows ==> Fits(s.rows[k]))
    && (forall pid :: pid in s.pending ==> Fits(s.pending[pid].snapshot))
  }

  /** Whatever the interleaving, lost updates included, every row keeps 0 <= reserved <= onHand,
      and a handler of an order event with a quantity that is not negative never attempts a write
      the table would reject; any handler's attempt is rejected exactly when Acceptable says so. */
  lemma {:induction false} StockSafety(s: State, steps: seq<Step>)
    requires Safe(s)
    ensures Safe(Run(s, steps)) && Run(s, steps).rows.Keys == s.rows.Keys
    ensures forall k :: k in Run(s, steps).rows ==>
              var r := Run(s, steps).rows[k];
              0 <= r.reserved <= r.onHand <= 2147483647 && 0 <= r.incoming <= 2147483647
    ensures forall pid :: pid in Run(s, steps).pending && Written(Run(s, steps).pending[pid]).Some? ==>
              var p := Run(s, steps).pending[pid];
              && (Fits(Written(p).value) <==> Acceptable(p.event, p.snapshot))
              && (p.event.quantity >= 0 && !p.event.ShipmentCancelled? ==> Fits(Written(p).value))
    decreases |steps|
  {
    if steps == [] {
      forall pid | pid in s.pending && Written(s.pending[pid]).Some?
        ensures var p := s.pending[pid];
                && (Fits(Written(p).value) <==> Acceptable(p.event, p.snapshot))
                && (p.event.quantity >= 0 && !p.event.ShipmentCancelled? ==> Fits(Written(p).value))
      {
        var p := s.pending[pid];
        WriteAccepted(p.event, p.snapshot);
        if p.event.quantity >= 0 && !p.event.ShipmentCancelled? {
          OrdersAccepted(p.event, p.snapshot);
        }
      }
    } else {
      StockSafety(Next(s, steps[0]), steps[1..]);
    }
  }

  // ----- conservation -----

  datatype Drift = Drift(reserved: int, onHand: int)

  /** How far the stock of a key is from what its ledger gained since the start. */
  function Imbalance(k: Key, s0: State, s: State): Drift
    requires k in s0.rows && k in s.rows
  {
    var l0, l := LedgerOf(s0, k), LedgerOf(s, k);
    Drift(
      s.rows[k].reserved - s0.rows[k].reserved
      - ((l.granted - l0.granted) - (l.released - l0.released) - (l.shipped - l0.shipped)),
      s.rows[k].onHand - s0.rows[k].onHand - ((l.restored - l0.restored) - (l.shipped - l0.shipped)))
  }

  /** What an accepted write of k overwrites: the difference between the row it read and the row
      it replaces. */
  function StepDrift(s: State, step: Step, k: Key): Drift
    requires k in s.rows
  {
    if step.Write? && step.pid in s.pending && s.pending[step.pid].key == k
       && Written(s.pending[step.pid]).Some? && Fits(Written(s.pending[step.pid]).value)
    then
      var read := s.pending[step.pid].snapshot;
      Drift(read.reserved - s.rows[k].reserved, read.onHand - s.rows[k].onHand)
    else Drift(0, 0)
  }

  function RunDrift(s: State, steps: seq<Step>, k: Key): Drift
    requires k in s.rows
    decreases |steps|
  {
    if steps == [] then Drift(0, 0)
    else
      var first, rest := StepDrift(s, steps[0], k), RunDrift(Next(s, steps[0]), steps[1..], k);
      Drift(first.reserved + rest.reserved, first.onHand + rest.onHand)
  }

  lemma StepBalances(s: State, step: Step, k: Key)
    requires Safe(s) && k in s.rows
    ensures Imbalance(k, s, Next(s, step)) == StepDrift(s, step, k)
  {
    if step.Write? && step.pid in s.pending && s.pending[step.pid].key == k && Written(s.pending[step.pid]).Some? {
      WriteMoves(s.pending[step.pid]);
    }
  }

  /** An accepted write moves the snapshot's numbers by the quantities it enters. */
  lemma WriteMoves(p: Pending)
    requires Fits(p.snapshot) && Written(p).Some?
    ensures Fits(Written(p).value) ==>
            var l, r, w := Enter(Ledger(0, 0, 0, 0), p.event, p.snapshot), p.snapshot, Written(p).value;
            w.reserved - r.reserved == l.granted - l.released - l.shipped && w.onHand - r.onHand == l.restored - l.shipped
  {
    hide Wrap;
    var e, r := p.event, p.snapshot;
    WrapsFor(e.quantity, r);
    WrapsFor(Min(e.quantity, r.reserved), r);
    WrapsFor(Min(Min(e.quantity, r.reserved), r.onHand), r);
  }

  /** Conservation over every run, however interleaved: the stock differs from the ledger by
      exactly what stale writes overwrote. */
  lemma {:induction false} Conservation(s: State, steps: seq<Step>, k: Key)
    requires Safe(s) && k in s.rows
    ensures k in Run(s, steps).rows && Imbalance(k, s, Run(s, steps)) == RunDrift(s, steps, k)
    decreases |steps|
  {
    if steps != [] {
      var next := Next(s, steps[0]);
      StepBalances(s, steps[0], k);
      StepSafe(s, steps[0]);
      Conservation(next, steps[1..], k);
    }
  }

  lemma StepSafe(s: State, step: Step)
    requires Safe(s)
    ensures Safe(Next(s, step)) && Next(s, step).rows.Keys == s.rows.Keys
  {
  }

  /** A write of key k is current when no other write of k came between its read and itself. */
  predicate Current(s: State, step: Step, k: Key) {
    step.Write? && step.pid in s.pending && s.pending[step.pid].key == k && k in s.rows ==>
      s.pending[step.pid].snapshot == s.rows[k]
  }

  predicate AllCurrent(s: State, steps: seq<Step>, k: Key)
    decreases |steps|
  {
    steps == [] || (Current(s, steps[0], k) && AllCurrent(Next(s, steps[0]), steps[1..], k))
  }

  lemma {:induction false} CurrentWritesDoNotDrift(s: State, steps: seq<Step>, k: Key)
    requires k in s.rows && AllCurrent(s, steps, k)
    ensures RunDrift(s, steps, k) == Drift(0, 0)
    decreases |steps|
  {
    if steps != [] {
      CurrentWritesDoNotDrift(Next(s, steps[0]), steps[1..], k);
    }
  }

  /** When every write of a key is current, as when its events are handled one at a time, the
      stock balances, and nothing is released or shipped that was not reserved before or granted
      since. */
  lemma BalancedWhenCurrent(s: State, steps: seq<Step>, k: Key)
    requires Safe(s) && k in s.rows && AllCurrent(s, steps, k)
    ensures var l0, l := LedgerOf(s, k), LedgerOf(Run(s, steps), k);
            && k in Run(s, steps).rows && Imbalance(k, s, Run(s, steps)) == Drift(0, 0)
            && (l.released - l0.released) + (l.shipped - l0.shipped) <= s.rows[k].reserved + (l.granted - l0.granted)
            && l.shipped - l0.shipped <= s.rows[k].onHand + (l.restored - l0.restored)
  {
    Conservation(s, steps, k);
    CurrentWritesDoNotDrift(s, steps, k);
    StockSafety(s, steps);
  }

  /** A list of events handled one at a time. */
  function OneAtATime(k: Key, events: seq<Event>): seq<Step> {
    if events == [] then [] else [Read(0, k, events[0]), Write(0)] + OneAtATime(k, events[1..])
  }

  lemma {:induction false} OneAtATimeIsCurrent(s: State, k: Key, events: seq<Event>)
    requires k in s.rows && 0 !in s.pending
    ensures AllCurrent(s, OneAtATime(k, events), k)
    decreases |events|
  {
    if events != [] {
      var steps := OneAtATime(k, events);
      var s1 := Next(s, steps[0]);
      var s2 := Next(s1, steps[1]);
      assert steps[1..][1..] == OneAtATime(k, events[1..]);
      OneAtATimeIsCurrent(s2, k, events[1..]);
      assert AllCurrent(s1, steps[1..], k);
    }
  }

  /** Without that, stock is promised twice: two orders for everything available, each read
      before the other writes, are both granted. */
  lemma OrdersOversell(k: Key, row: Row)
    requires Fits(row) && row.reserved < row.onHand
    ensures var available := row.onHand - row.reserved;
            var s := State(map[k := row], map[], map[]);
            var end := Run(s, TwoOrders(k, available));
            && end.rows == map[k := row.(reserved := row.onHand)]
            && LedgerOf(end, k).granted == 2 * available
            && Imbalance(k, s, end) == Drift(-available, 0)
  {
    var available := row.onHand - row.reserved;
    var s, steps := State(map[k := row], map[], map[]), TwoOrders(k, available);
    var order := Pending(k, OrderPlaced(available), row);
    WrapsFor(available, row);
    var full := row.(reserved := row.onHand);
    assert Written(order) == Some(full);
    hide Written;
    var read := State(map[k := row], map[0 := order, 1 := order], map[]);
    assert Next(Next(s, steps[0]), steps[1]) == read;
    assert read.pending - {0} == map[1 := order] && map[1 := order] - {1} == map[];
    var first := State(map[k := full], map[1 := order], map[k := Ledger(available, 0, 0, 0)]);
    assert Next(read, steps[2]) == first;
    assert Next(first, steps[3]) == State(map[k := full], map[], map[k := Ledger(2 * available, 0, 0, 0)]);
    Runs.RunFour(Next, s, steps);
  }

  function TwoOrders(k: Key, quantity: int64): seq<Step> {
    [Read(0, k, OrderPlaced(quantity)), Read(1, k, OrderPlaced(quantity)), Write(0), Write(1)]
  }
}
