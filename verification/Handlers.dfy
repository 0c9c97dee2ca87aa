/** The inventory event handlers as they run: a read, the clamping, a whole-row write through
    the domain layer and the store, and the publications. */
module Handlers {
  import opened Bytes
  import opened Stock

  datatype Reason = Reservation | Release | Dispatched | Cancelled

  /** What the handlers publish. */
  datatype Notice =
    | ReservationFailed(requested: int64, available: int64)
    | Reserved(quantity: int64, availableAfter: int64, reservedAfter: int64)
    | Updated(available: int64, reserved: int64, incoming: int64, reason: Reason)

  /** The inventory table: a write replaces a whole row or, when the CHECKs reject it, fails;
      updating a missing row changes nothing and is not an error. */
  class Store {
    var rows: map<Key, Row>

    method GetInventory(k: Key) returns (row: Option<Row>)
      ensures row == if k in rows then Some(rows[k]) else None
    {
      row := if k in rows then Some(rows[k]) else None;
    }

    method UpdateInventory(k: Key, row: Row) returns (ok: bool)
      modifies this
      ensures ok == (k !in old(rows) || Fits(row))
      ensures rows == if k in old(rows) && Fits(row) then old(rows)[k := row] else old(rows)
    {
      if k !in rows {
        return true;
      }
      if !Fits(row) {
        return false;
      }
      rows := rows[k := row];
      ok := true;
    }
  }

  /** The event bus. Whether it takes a message is decided outside; it keeps what it took. */
  class Publisher {
    var sent: seq<Notice>

    method Publish(n: Notice, accepted: bool) returns (ok: bool)
      modifies this
      ensures ok == accepted && sent == if accepted then old(sent) + [n] else old(sent)
    {
      if accepted {
        sent := sent + [n];
      }
      ok := accepted;
    }
  }

  function UpdatedNotice(row: Row, reason: Reason): Notice {
    Updated(Wrap(row.onHand - row.reserved), row.reserved, row.incoming, reason)
  }

  /** The notices a handler tries to publish, in order, after reading row. */
  function Notices(e: Event, row: Row): seq<Notice> {
    match (e, Decide(e, row))
    case (OrderPlaced(q), None) => [ReservationFailed(q, Wrap(row.onHand - row.reserved))]
    case (_, None) => []
    case (_, Some(patch)) =>
      var after := Apply(row, patch);
      match e
      case OrderPlaced(q) =>
        [Reserved(q, Wrap(after.onHand - after.reserved), after.reserved), UpdatedNotice(after, Reservation)]
      case OrderCancelled(_) => [UpdatedNotice(after, Release)]
      case OrderShipped(_) => [UpdatedNotice(after, Dispatched)]
      case ShipmentCancelled(_) => [UpdatedNotice(after, Cancelled)]
  }

  /** Publishing stops at the first message that is not taken. */
  function Taken(notices: seq<Notice>, accepted: seq<bool>): seq<Notice>
    requires |accepted| >= |notices|
  {
    if notices == [] || !accepted[0] then [] else [notices[0]] + Taken(notices[1..], accepted[1..])
  }

  lemma TakenOne(sent: seq<Notice>, n: Notice, accepted: seq<bool>)
    requires |accepted| >= 1
    ensures sent + Taken([n], accepted) == if accepted[0] then sent + [n] else sent
    ensures |Taken([n], accepted)| == if accepted[0] then 1 else 0
  {
    assert Taken([n], accepted) == if accepted[0] then [n] else [];
  }

  lemma TakenTwo(sent: seq<Notice>, m: Notice, n: Notice, accepted: seq<bool>)
    requires |accepted| >= 2
    ensures sent + Taken([m, n], accepted) ==
            if !accepted[0] then sent else if accepted[1] then sent + [m] + [n] else sent + [m]
    ensures |Taken([m, n], accepted)| == if !accepted[0] then 0 else if accepted[1] then 2 else 1
  {
    TakenOne(sent + [m], n, accepted[1..]);
    assert [m, n][1..] == [n];
    if accepted[0] {
      assert Taken([m, n], accepted) == [m] + Taken([n], accepted[1..]);
      assert sent + ([m] + Taken([n], accepted[1..])) == sent + [m] + Taken([n], accepted[1..]);
    }
  }

  /** What handling an event does to the rows, what it publishes, and whether it returns an
      error. A row that is not found or a rejected write is an error and publishes nothing; a
      publication that is not taken is an error after the write. */
  datatype HandlerEffect = HandlerEffect(rows: map<Key, Row>, taken: seq<Notice>, failed: bool)

  function Handle(rows: map<Key, Row>, k: Key, e: Event, accepted: seq<bool>): HandlerEffect
    requires |accepted| == 2
  {
    if k !in rows then HandlerEffect(rows, [], true)
    else
      var row := rows[k];
      match Decide(e, row)
      case Some(patch) =>
        var after := Apply(row, patch);
        if Fits(after) then Publishing(rows[k := after], Notices(e, row), accepted)
        else HandlerEffect(rows, [], true)
      case None => Publishing(rows, Notices(e, row), accepted)
  }

  function Publishing(rows: map<Key, Row>, notices: seq<Notice>, accepted: seq<bool>): HandlerEffect
    requires |accepted| >= |notices|
  {
    var taken := Taken(notices, accepted);
    HandlerEffect(rows, taken, |taken| < |notices|)
  }

  class Service {
    const store: Store
    const bus: Publisher

    constructor (store: Store, bus: Publisher)
      ensures this.store == store && this.bus == bus
    {
      this.store := store;
      this.bus := bus;
    }

    /** Business.UpdateInventory: overwrites the patched fields of the snapshot and writes it. */
    method UpdateInventory(k: Key, snapshot: Row, patch: Patch) returns (updated: Option<Row>)
      modifies store
      ensures var after := Apply(snapshot, patch);
              && updated == (if k !in old(store.rows) || Fits(after) then Some(after) else None)
              && store.rows == if k in old(store.rows) && Fits(after) then old(store.rows)[k := after] else old(store.rows)
    {
      var inv := snapshot;
      if patch.onHand.Some? {
        inv := inv.(onHand := patch.onHand.value);
      }
      if patch.reserved.Some? {
        inv := inv.(reserved := patch.reserved.value);
      }
      if patch.incoming.Some? {
        inv := inv.(incoming := patch.incoming.value);
      }
      var ok := store.UpdateInventory(k, inv);
      updated := if ok then Some(inv) else None;
    }

    method HandleOrderPlaced(k: Key, quantity: int64, accepted: seq<bool>) returns (failed: bool)
      requires |accepted| == 2
      modifies store, bus
      ensures var effect := Handle(old(store.rows), k, OrderPlaced(quantity), accepted);
              store.rows == effect.rows && bus.sent == old(bus.sent) + effect.taken && failed == effect.failed
    {
      hide Taken, Wrap, Fits;
      var got := store.GetInventory(k);
      if got == None {
        return true;
      }
      var inv := got.value;
      var available := Wrap(inv.onHand - inv.reserved);
      if available < quantity {
        TakenOne(bus.sent, ReservationFailed(quantity, available), accepted);
        var told := bus.Publish(ReservationFailed(quantity, available), accepted[0]);
        return !told;
      }
      var newReserved := Wrap(inv.reserved + quantity);
      var updated := UpdateInventory(k, inv, Patch(None, Some(newReserved), None));
      if updated == None {
        return true;
      }
      var after := updated.value;
      TakenTwo(bus.sent, Reserved(quantity, Wrap(after.onHand - after.reserved), after.reserved),
               UpdatedNotice(after, Reservation), accepted);
      var ok := bus.Publish(Reserved(quantity, Wrap(after.onHand - after.reserved), after.reserved), accepted[0]);
      if !ok {
        return true;
      }
      ok := bus.Publish(UpdatedNotice(after, Reservation), accepted[1]);
      return !ok;
    }

    method HandleOrderCancelled(k: Key, quantity: int64, accepted: seq<bool>) returns (failed: bool)
      requires |accepted| == 2
      modifies store, bus
      ensures var effect := Handle(old(store.rows), k, OrderCancelled(quantity), accepted);
              store.rows == effect.rows && bus.sent == old(bus.sent) + effect.taken && failed == effect.failed
    {
      hide Wrap, Fits;
      var got := store.GetInventory(k);
      if got == None {
        return true;
      }
      var inv := got.value;
      if inv.reserved == 0 {
        return false;
      }
      var releaseQty := quantity;
      if releaseQty > inv.reserved {
        releaseQty := inv.reserved;
      }
      var newReserved := Wrap(inv.reserved - releaseQty);
      var updated := UpdateInventory(k, inv, Patch(None, Some(newReserved), None));
      if updated == None {
        return true;
      }
      TakenOne(bus.sent, UpdatedNotice(updated.value, Release), accepted);
      var ok := bus.Publish(UpdatedNotice(updated.value, Release), accepted[0]);
      return !ok;
    }

    method HandleOrderShipped(k: Key, quantity: int64, accepted: seq<bool>) returns (failed: bool)
      requires |accepted| == 2
      modifies store, bus
      ensures var effect := Handle(old(store.rows), k, OrderShipped(quantity), accepted);
              store.rows == effect.rows && bus.sent == old(bus.sent) + effect.taken && failed == effect.failed
    {
      hide Wrap, Fits;
      var got := store.GetInventory(k);
      if got == None {
        return true;
      }
      var inv := got.value;
      if inv.reserved == 0 {
        return false;
      }
      var shipQty := quantity;
      if shipQty > inv.reserved {
        shipQty := inv.reserved;
      }
      if shipQty > inv.onHand {
        shipQty := inv.onHand;
      }
      var newReserved := Wrap(inv.reserved - shipQty);
      var newOnHand := Wrap(inv.onHand - shipQty);
      var updated := UpdateInventory(k, inv, Patch(Some(newOnHand), Some(newReserved), None));
      if updated == None {
        return true;
      }
      TakenOne(bus.sent, UpdatedNotice(updated.value, Dispatched), accepted);
      var ok := bus.Publish(UpdatedNotice(updated.value, Dispatched), accepted[0]);
      return !ok;
    }

    method HandleShipmentCancelled(k: Key, quantity: int64, accepted: seq<bool>) returns (failed: bool)
      requires |accepted| == 2
      modifies store, bus
      ensures var effect := Handle(old(store.rows), k, ShipmentCancelled(quantity), accepted);
              store.rows == effect.rows && bus.sent == old(bus.sent) + effect.taken && failed == effect.failed
    {
      hide Wrap, Fits;
      var got := store.GetInventory(k);
      if got == None {
        return true;
      }
      var inv := got.value;
      var restoreQty := quantity;
      if restoreQty <= 0 {
        return false;
      }
      var newOnHand := Wrap(inv.onHand + restoreQty);
      var updated := UpdateInventory(k, inv, Patch(Some(newOnHand), None, None));
      if updated == None {
        return true;
      }
      TakenOne(bus.sent, UpdatedNotice(updated.value, Cancelled), accepted);
      var ok := bus.Publish(UpdatedNotice(updated.value, Cancelled), accepted[0]);
      return !ok;
    }
  }

  // ----- what handling an event promises -----

  /** The rows after an uninterrupted handler are those of its read step and its write step in
      the interleaved account. */
  lemma HandleIsReadThenWrite(s: State, k: Key, e: Event, accepted: seq<bool>)
    requires 0 !in s.pending && |accepted| == 2
    ensures Handle(s.rows, k, e, accepted).rows == Next(Next(s, Read(0, k, e)), Write(0)).rows
  {
  }

  lemma HandleKeepsKeys(rows: map<Key, Row>, k: Key, e: Event, accepted: seq<bool>)
    requires |accepted| == 2
    ensures Handle(rows, k, e, accepted).rows.Keys == rows.Keys
  {
  }

  /** Published stock numbers are true when they are published: every notice of a reservation or
      an update tells the row as it was just written, and a reservation never leaves less than
      nothing. */
  lemma NoticesAreTrue(rows: map<Key, Row>, k: Key, e: Event, accepted: seq<bool>)
    requires k in rows && Fits(rows[k]) && |accepted| == 2
    ensures var effect := Handle(rows, k, e, accepted);
            var after := effect.rows[k];
            && Fits(after)
            && forall n :: n in effect.taken ==>
                 match n
                 case Updated(available, reserved, incoming, _) =>
                   available == after.onHand - after.reserved && reserved == after.reserved && incoming == after.incoming
                 case Reserved(q, availableAfter, reservedAfter) =>
                   && q + rows[k].reserved == reservedAfter == after.reserved
                   && 0 <= availableAfter == after.onHand - after.reserved
                 case ReservationFailed(requested, available) =>
                   requested > available == rows[k].onHand - rows[k].reserved && after == rows[k]
  {
    hide Wrap;
    var row := rows[k];
    WrapsFor(e.quantity, row);
    if Decide(e, row).Some? {
      var after := Apply(row, Decide(e, row).value);
      if Fits(after) {
        WrapsFor(0, after);
        WriteAccepted(e, row);
      }
    }
    TakenAreNotices(Notices(e, row), accepted);
  }

  lemma {:induction false} TakenAreNotices(notices: seq<Notice>, accepted: seq<bool>)
    requires |accepted| >= |notices|
    ensures Taken(notices, accepted) <= notices
  {
    if notices != [] && accepted[0] {
      TakenAreNotices(notices[1..], accepted[1..]);
      assert notices == [notices[0]] + notices[1..];
    }
  }

  // ----- what each handler does, in numbers -----

  /** No row, no effect but an error. */
  lemma MissingRow(rows: map<Key, Row>, k: Key, e: Event, accepted: seq<bool>)
    requires k !in rows && |accepted| == 2
    ensures Handle(rows, k, e, accepted) == HandlerEffect(rows, [], true)
  {
  }

  /** A handler that publishes one notice, after whatever it did to the rows. */
  predicate Publishes(effect: HandlerEffect, rows: map<Key, Row>, notice: Notice, taken: bool) {
    effect == if taken then HandlerEffect(rows, [notice], false) else HandlerEffect(rows, [], true)
  }

  /** A handler that publishes two, the second only after the first has been taken. */
  predicate PublishesBoth(effect: HandlerEffect, rows: map<Key, Row>, first: Notice, second: Notice, accepted: seq<bool>)
    requires |accepted| == 2
  {
    effect == if !accepted[0] then HandlerEffect(rows, [], true)
              else if !accepted[1] then HandlerEffect(rows, [first], true)
              else HandlerEffect(rows, [first, second], false)
  }

  /** An order that asks for more than is available is told so, with the numbers; any other raises
      the reservation and says so twice, unless its quantity is so far below zero that the table
      rejects the row. */
  lemma OrderPlacedExactly(rows: map<Key, Row>, k: Key, q: int64, accepted: seq<bool>)
    requires k in rows && |accepted| == 2
    requires 0 <= rows[k].reserved <= rows[k].onHand <= 2147483647 && 0 <= rows[k].incoming <= 2147483647
    ensures var r, effect := rows[k], Handle(rows, k, OrderPlaced(q), accepted);
            var free := r.onHand - r.reserved;
            && (free < q ==> Publishes(effect, rows, ReservationFailed(q, free), accepted[0]))
            && (0 <= r.reserved + q && q <= free ==>
                  PublishesBoth(effect, rows[k := Row(r.onHand, r.reserved + q, r.incoming)],
                                Reserved(q, free - q, r.reserved + q),
                                Updated(free - q, r.reserved + q, r.incoming, Reservation), accepted))
            && (r.reserved + q < 0 ==> effect == HandlerEffect(rows, [], true))
  {
    hide Wrap, Taken;
    var r := rows[k];
    WrapsFor(q, r);
    if q <= r.onHand - r.reserved && 0 <= r.reserved + q {
      var after := Row(r.onHand, r.reserved + q, r.incoming);
      WrapsFor(0, after);
      TwoTaken(Notices(OrderPlaced(q), r)[0], Notices(OrderPlaced(q), r)[1], accepted);
    } else if q > r.onHand - r.reserved {
      OneTaken(Notices(OrderPlaced(q), r)[0], accepted);
    }
  }

  function ReasonOf(e: Event): Reason {
    match e
    case OrderPlaced(_) => Reservation
    case OrderCancelled(_) => Release
    case OrderShipped(_) => Dispatched
    case ShipmentCancelled(_) => Cancelled
  }

  /** The handlers that publish once: nothing to write, a row the table rejects, or a row written
      and told. */
  lemma PublishesOnce(rows: map<Key, Row>, k: Key, e: Event, accepted: seq<bool>)
    requires k in rows && |accepted| == 2 && !e.OrderPlaced?
    ensures var effect, patch := Handle(rows, k, e, accepted), Decide(e, rows[k]);
            && (patch == None ==> effect == HandlerEffect(rows, [], false))
            && (patch.Some? ==>
                  var r := Apply(rows[k], patch.value);
                  if Fits(r)
                  then Publishes(effect, rows[k := r],
                                 Updated(r.onHand - r.reserved, r.reserved, r.incoming, ReasonOf(e)), accepted[0])
                  else effect == HandlerEffect(rows, [], true))
  {
    assert Taken([], accepted) == [];
    hide Wrap, Taken, Decide, Apply;
    var patch := Decide(e, rows[k]);
    if patch.Some? && Fits(Apply(rows[k], patch.value)) {
      WrapsFor(0, Apply(rows[k], patch.value));
      OneTaken(Notices(e, rows[k])[0], accepted);
    }
  }

  /** A cancelled order releases what it ordered, or all that is reserved if that is less, and says
      so; without a reservation it is passed over in silence. */
  lemma OrderCancelledExactly(rows: map<Key, Row>, k: Key, q: int64, accepted: seq<bool>)
    requires k in rows && |accepted| == 2
    requires 0 <= rows[k].reserved <= rows[k].onHand <= 2147483647 && 0 <= rows[k].incoming <= 2147483647
    ensures var r, effect := rows[k], Handle(rows, k, OrderCancelled(q), accepted);
            var left := if q < r.reserved then r.reserved - q else 0;
            && (r.reserved == 0 ==> effect == HandlerEffect(rows, [], false))
            && (r.reserved > 0 && left <= r.onHand ==>
                  Publishes(effect, rows[k := Row(r.onHand, left, r.incoming)],
                            Updated(r.onHand - left, left, r.incoming, Release), accepted[0]))
            && (r.reserved > 0 && left > r.onHand ==> effect == HandlerEffect(rows, [], true))
  {
    hide Wrap, Handle;
    PublishesOnce(rows, k, OrderCancelled(q), accepted);
    WrapsFor(Min(q, rows[k].reserved), rows[k]);
  }

  /** A shipped order takes what it ordered, or all that is reserved if that is less, out of the
      reservation and the stock alike, and says so. */
  lemma OrderShippedExactly(rows: map<Key, Row>, k: Key, q: int64, accepted: seq<bool>)
    requires k in rows && |accepted| == 2
    requires 0 <= rows[k].reserved <= rows[k].onHand <= 2147483647 && 0 <= rows[k].incoming <= 2147483647
    ensures var r, effect := rows[k], Handle(rows, k, OrderShipped(q), accepted);
            var shipped := if q < r.reserved then q else r.reserved;
            && (r.reserved == 0 ==> effect == HandlerEffect(rows, [], false))
            && (r.reserved > 0 && r.onHand - shipped <= 2147483647 ==>
                  Publishes(effect, rows[k := Row(r.onHand - shipped, r.reserved - shipped, r.incoming)],
                            Updated(r.onHand - r.reserved, r.reserved - shipped, r.incoming, Dispatched), accepted[0]))
            && (r.reserved > 0 && r.onHand - shipped > 2147483647 ==> effect == HandlerEffect(rows, [], true))
  {
    hide Wrap, Handle;
    PublishesOnce(rows, k, OrderShipped(q), accepted);
    WrapsFor(Min(Min(q, rows[k].reserved), rows[k].onHand), rows[k]);
  }

  /** A cancelled shipment puts its quantity back and says so, as long as the column holds the sum;
      one of nothing, or of less, is passed over in silence. */
  lemma ShipmentCancelledExactly(rows: map<Key, Row>, k: Key, q: int64, accepted: seq<bool>)
    requires k in rows && |accepted| == 2
    requires 0 <= rows[k].reserved <= rows[k].onHand <= 2147483647 && 0 <= rows[k].incoming <= 2147483647
    ensures var r, effect := rows[k], Handle(rows, k, ShipmentCancelled(q), accepted);
            && (q <= 0 ==> effect == HandlerEffect(rows, [], false))
            && (q > 0 && r.onHand + q <= 2147483647 ==>
                  Publishes(effect, rows[k := Row(r.onHand + q, r.reserved, r.incoming)],
                            Updated(r.onHand + q - r.reserved, r.reserved, r.incoming, Cancelled), accepted[0]))
            && (q > 0 && r.onHand + q > 2147483647 ==> effect == HandlerEffect(rows, [], true))
  {
    hide Wrap, Handle;
    PublishesOnce(rows, k, ShipmentCancelled(q), accepted);
    WrapsFor(q, rows[k]);
  }

  lemma OneTaken(n: Notice, accepted: seq<bool>)
    requires |accepted| == 2
    ensures Taken([n], accepted) == if accepted[0] then [n] else []
  {
  }

  lemma TwoTaken(m: Notice, n: Notice, accepted: seq<bool>)
    requires |accepted| == 2
    ensures Taken([m, n], accepted) == if !accepted[0] then [] else if accepted[1] then [m, n] else [m]
  {
    TakenOne([], n, accepted[1..]);
    assert [m, n][1..] == [n] && [m] + [n] == [m, n];
    assert Taken([n], accepted[1..]) == if accepted[1] then [n] else [];
  }

  // ----- errors that leave changed stock -----

  /** Exactly when a handler's accepted write changes the row, for every quantity a message can
      carry. */
  predicate Moves(e: Event, r: Row) {
    && e.quantity != 0 && Acceptable(e, r)
    && match e
       case OrderPlaced(q) => q <= r.onHand - r.reserved
       case OrderCancelled(_) => r.reserved > 0
       case OrderShipped(_) => r.reserved > 0
       case ShipmentCancelled(q) => q > 0
  }

  /** A handler publishes after its write and does not take the write back: it returns an error
      and leaves the stock changed if and only if its write changes the row and one of its
      publications is refused. */
  lemma ChangedThoughFailed(rows: map<Key, Row>, k: Key, e: Event, accepted: seq<bool>)
    requires |accepted| == 2 && (k in rows ==> Fits(rows[k]))
    ensures var effect := Handle(rows, k, e, accepted);
            effect.failed && effect.rows != rows <==>
              k in rows && Moves(e, rows[k]) && (!accepted[0] || (e.OrderPlaced? && !accepted[1]))
  {
    hide Wrap, Taken;
    if k in rows {
      MovesExactly(e, rows[k]);
      match Decide(e, rows[k]) {
        case None =>
        case Some(patch) =>
          var after := Apply(rows[k], patch);
          assert rows[k := after][k] == after && (after == rows[k] ==> rows[k := after] == rows);
          if e.OrderPlaced? {
            TakenTwo([], Notices(e, rows[k])[0], Notices(e, rows[k])[1], accepted);
          } else {
            TakenOne([], Notices(e, rows[k])[0], accepted);
          }
      }
    }
  }

  lemma MovesExactly(e: Event, r: Row)
    requires Fits(r)
    ensures Moves(e, r) <==>
              Decide(e, r).Some? && Fits(Apply(r, Decide(e, r).value)) && Apply(r, Decide(e, r).value) != r
  {
    hide Wrap;
    WrapsFor(e.quantity, r);
    WrapsFor(Min(e.quantity, r.reserved), r);
    WrapsFor(Min(Min(e.quantity, r.reserved), r.onHand), r);
    if Decide(e, r).Some? {
      WriteAccepted(e, r);
    }
  }

  /** An event whose publications keep being refused, handled n times over. */
  function Retried(rows: map<Key, Row>, k: Key, e: Event, n: nat): map<Key, Row> {
    if n == 0 then rows
    else Handle(Retried(rows, k, e, n - 1), k, e, [false, false]).rows
  }

  /** What full portions leave of the room there is. */
  function Remnant(portion: nat, room: nat): (r: nat)
    ensures r <= room && (portion > 0 ==> r < portion)
  {
    if portion == 0 then 0 else room % portion
  }

  /** What n portions take of the room there is, when one that does not fit is left out. */
  function Portions(n: nat, portion: nat, room: nat): int {
    if n * portion <= room then n * portion else room - Remnant(portion, room)
  }

  /** What n portions take of a stock that gives what it can. */
  function Drained(n: nat, portion: nat, stock: nat): int {
    if n * portion <= stock then n * portion else stock
  }

  lemma DrainedStep(n: nat, portion: nat, stock: nat)
    requires n > 0
    ensures 0 <= Drained(n - 1, portion, stock) <= stock && 0 <= Drained(n, portion, stock) <= stock
    ensures var before := Drained(n - 1, portion, stock);
            Drained(n, portion, stock) == before + if portion <= stock - before then portion else stock - before
  {
    var before := (n - 1) * portion;
    assert n * portion == before + portion && before >= 0;
  }

  lemma PortionsStep(n: nat, portion: nat, room: nat)
    requires n > 0
    ensures 0 <= Portions(n - 1, portion, room) <= room && 0 <= Portions(n, portion, room) <= room
    ensures Portions(n, portion, room) ==
            Portions(n - 1, portion, room) + if Portions(n - 1, portion, room) + portion <= room then portion else 0
  {
    hide Remnant;
    var before := (n - 1) * portion;
    assert n * portion == before + portion && before >= 0;
    if before <= room < before + portion {
      RemnantIs(n - 1, portion, room);
    }
  }

  lemma RemnantIs(n: nat, portion: nat, room: nat)
    requires n * portion <= room < n * portion + portion
    ensures Remnant(portion, room) == room - n * portion
  {
    var quotient := room / portion;
    if quotient < n {
      MoreIsAtLeastOneMore(quotient, n, portion);
    } else if quotient > n {
      MoreIsAtLeastOneMore(n, quotient, portion);
    }
  }

  lemma {:induction false} MoreIsAtLeastOneMore(m: nat, n: nat, portion: nat)
    requires m < n
    ensures m * portion + portion <= n * portion
  {
    assert n * portion == (n - 1) * portion + portion;
    if m < n - 1 {
      MoreIsAtLeastOneMore(m, n - 1, portion);
    }
  }

  /** The numbers of a row that the handlers change. */
  datatype StockLevels = StockLevels(reserved: int, onHand: int)

  /** One handling of an event, a quantity below zero included: it takes back what the event would
      give, as far as the table accepts it. */
  function Handled(e: Event, l: StockLevels): StockLevels {
    match e
    case OrderPlaced(q) => if 0 <= l.reserved + q <= l.onHand then l.(reserved := l.reserved + q) else l
    case OrderCancelled(q) =>
      if l.reserved == 0 || l.reserved - q > l.onHand then l
      else l.(reserved := if q <= l.reserved then l.reserved - q else 0)
    case OrderShipped(q) =>
      if l.reserved == 0 || l.onHand - q > MAX_INTEGER then l
      else
        var shipped := if q <= l.reserved then q else l.reserved;
        StockLevels(l.reserved - shipped, l.onHand - shipped)
    case ShipmentCancelled(q) => if 0 < q <= MAX_INTEGER - l.onHand then l.(onHand := l.onHand + q) else l
  }

  lemma HandledIs(e: Event, r: Row)
    requires Fits(r)
    ensures var written := Decide(e, r).Some? && Fits(Apply(r, Decide(e, r).value));
            var after := if written then Apply(r, Decide(e, r).value) else r;
            && StockLevels(after.reserved, after.onHand) == Handled(e, StockLevels(r.reserved, r.onHand))
            && after.incoming == r.incoming
  {
    hide Wrap;
    WrapsFor(e.quantity, r);
    WrapsFor(Min(e.quantity, r.reserved), r);
    WrapsFor(Min(Min(e.quantity, r.reserved), r.onHand), r);
    if Decide(e, r).Some? {
      WriteAccepted(e, r);
    }
    assert 0 <= r.reserved <= r.onHand <= MAX_INTEGER;
    hide Fits;
  }

  function Magnitude(q: int): nat {
    if q < 0 then -q else q
  }

  /** What n handlings of one event come to: orders reserve as often as stock lasts, cancelled
      orders release and shipped ones drain down to nothing, and cancelled shipments create stock
      up to what the column holds; quantities below zero do the reverse within the same bounds. */
  function AfterRetries(e: Event, r: Row, n: nat): StockLevels
    requires Fits(r)
  {
    var q := Magnitude(e.quantity);
    var taken, room := Drained(n, q, r.reserved), Portions(n, q, MAX_INTEGER - r.onHand);
    match e
    case OrderPlaced(_) =>
      if e.quantity >= 0 then StockLevels(r.reserved + Portions(n, q, r.onHand - r.reserved), r.onHand)
      else StockLevels(r.reserved - Portions(n, q, r.reserved), r.onHand)
    case OrderCancelled(_) =>
      if e.quantity >= 0 then StockLevels(r.reserved - taken, r.onHand)
      else if r.reserved == 0 then StockLevels(r.reserved, r.onHand)
      else StockLevels(r.reserved + Portions(n, q, r.onHand - r.reserved), r.onHand)
    case OrderShipped(_) =>
      if e.quantity >= 0 then StockLevels(r.reserved - taken, r.onHand - taken)
      else if r.reserved == 0 then StockLevels(r.reserved, r.onHand)
      else StockLevels(r.reserved + room, r.onHand + room)
    case ShipmentCancelled(_) =>
      if e.quantity > 0 then StockLevels(r.reserved, r.onHand + room) else StockLevels(r.reserved, r.onHand)
  }

  lemma RetryStep(e: Event, r: Row, n: nat)
    requires Fits(r) && n > 0
    ensures AfterRetries(e, r, n) == Handled(e, AfterRetries(e, r, n - 1))
  {
    hide Portions, Drained;
    var q := Magnitude(e.quantity);
    DrainedStep(n, q, r.reserved);
    PortionsStep(n, q, r.reserved);
    PortionsStep(n, q, r.onHand - r.reserved);
    PortionsStep(n, q, MAX_INTEGER - r.onHand);
  }

  lemma NoRetries(e: Event, r: Row)
    requires Fits(r)
    ensures AfterRetries(e, r, 0) == StockLevels(r.reserved, r.onHand)
  {
  }

  /** Retrying after an error acts again, for every kind of event and every quantity: n handlings
      whose publications are refused reserve, release, ship or restore as n separate events would. */
  lemma {:induction false} RetriesAct(rows: map<Key, Row>, k: Key, e: Event, n: nat)
    requires k in rows && Fits(rows[k])
    ensures Retried(rows, k, e, n).Keys == rows.Keys
    ensures forall k' :: k' in rows && k' != k ==> Retried(rows, k, e, n)[k'] == rows[k']
    ensures var after := Retried(rows, k, e, n)[k];
            && Fits(after) && after.incoming == rows[k].incoming
            && StockLevels(after.reserved, after.onHand) == AfterRetries(e, rows[k], n)
  {
    hide Wrap, Taken, Decide, Apply, Fits, AfterRetries, Handled;
    if n > 0 {
      RetriesAct(rows, k, e, n - 1);
      RetryStep(e, rows[k], n);
      HandledIs(e, Retried(rows, k, e, n - 1)[k]);
    } else {
      NoRetries(e, rows[k]);
    }
  }

  /** Each retry of an order reserves its quantity again, as long as the table accepts it. */
  lemma RetriesReserveAgain(rows: map<Key, Row>, k: Key, quantity: int64, n: nat)
    requires k in rows && Fits(rows[k])
    requires 0 <= rows[k].reserved + n * quantity <= rows[k].onHand
    ensures Retried(rows, k, OrderPlaced(quantity), n) == rows[k := rows[k].(reserved := rows[k].reserved + n * quantity)]
  {
    hide Retried, AfterRetries;
    RetriesAct(rows, k, OrderPlaced(quantity), n);
    RoomForAll(rows[k], quantity, n);
  }

  lemma RoomForAll(r: Row, quantity: int64, n: nat)
    requires Fits(r) && 0 <= r.reserved + n * quantity <= r.onHand
    ensures AfterRetries(OrderPlaced(quantity), r, n) == StockLevels(r.reserved + n * quantity, r.onHand)
  {
    assert n * Magnitude(quantity) == if quantity < 0 then -(n * quantity) else n * quantity;
  }
}
