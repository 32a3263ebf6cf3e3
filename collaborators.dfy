/**
 * In-memory stand-ins for what the service talks to: the order table behind the
 * repository, the query runner that carries one transaction, the broker channel a
 * status message arrived on, and the client that publishes to the kitchen. Their
 * contracts are assumptions about the store and the broker, not derived from them.
 * Every call that can throw takes a flag saying whether it throws this time.
 */
module Collaborators {
  import opened Wrappers
  import opened Orders

  /** The order table. */
  class OrderTable {
    var rows: Table
    /** The value the status column takes when an order is inserted. */
    const defaultStatus: StatusId

    ghost predicate Valid()
      reads this
    {
      KeyedById(rows)
    }

    constructor (rows: Table, defaultStatus: StatusId)
      requires KeyedById(rows)
      ensures Valid() && this.rows == rows && this.defaultStatus == defaultStatus
    {
      this.rows := rows;
      this.defaultStatus := defaultStatus;
    }

    /** `save` of the entities `create` built: all rows are inserted, or none. The store
        picks the ids and the insert time. */
    method Save(inputs: seq<OrderInput>, ids: seq<OrderId>, createdAt: int, throws: bool)
      returns (ok: bool, saved: seq<Order>)
      requires Valid()
      requires |ids| == |inputs| && FreshIds(rows, ids)
      modifies this
      ensures Valid()
      ensures ok == !throws
      ensures saved == NewOrders(inputs, ids, createdAt, defaultStatus)
      ensures rows == if ok then Inserted(old(rows), saved) else old(rows)
    {
      saved := NewOrders(inputs, ids, createdAt, defaultStatus);
      ok := !throws;
      if ok {
        NewOrdersKeyedById(rows, inputs, ids, createdAt, defaultStatus);
        rows := Inserted(rows, saved);
      }
    }
  }

  /** A query runner: one connection and at most one transaction on it. */
  class QueryRunner {
    const table: OrderTable
    var connected: bool
    var isTransactionActive: bool
    var isReleased: bool
    /** The table as it was when the transaction started. */
    var snapshot: Table
    /** How many times a rollback and a release were attempted. */
    var rollbacks: nat
    var releases: nat

    constructor (table: OrderTable)
      ensures this.table == table
      ensures !connected && !isTransactionActive && !isReleased
      ensures rollbacks == 0 && releases == 0
    {
      this.table := table;
      connected, isTransactionActive, isReleased := false, false, false;
      snapshot := map[];
      rollbacks, releases := 0, 0;
    }

    /** What other connections would see once this one is gone: uncommitted work never counts. */
    ghost function Durable(): Table
      reads this, table
    {
      if isTransactionActive then snapshot else table.rows
    }

    method Connect(throws: bool) returns (ok: bool)
      modifies this`connected
      ensures ok == !throws
      ensures connected == (old(connected) || ok)
    {
      ok := !throws;
      if ok { connected := true; }
    }

    /** A start that throws leaves no transaction open. */
    method StartTransaction(throws: bool) returns (ok: bool)
      requires connected && !isTransactionActive
      modifies this`isTransactionActive, this`snapshot
      ensures ok == !throws
      ensures isTransactionActive == ok
      ensures snapshot == if ok then table.rows else old(snapshot)
    {
      ok := !throws;
      if ok {
        isTransactionActive := true;
        snapshot := table.rows;
      }
    }

    /** `UPDATE ... SET p WHERE id = id` inside the transaction; a statement that throws changes nothing. */
    method UpdateWhereId(id: OrderId, p: Patch, throws: bool) returns (ok: bool)
      requires isTransactionActive && table.Valid()
      modifies table
      ensures table.Valid()
      ensures ok == !throws
      ensures table.rows == if ok then Orders.UpdateWhereId(old(table.rows), id, p) else old(table.rows)
    {
      ok := !throws;
      if ok {
        table.rows := Orders.UpdateWhereId(table.rows, id, p);
      }
    }

    /** A commit that throws leaves the transaction open (the flag is cleared only once COMMIT returns). */
    method CommitTransaction(throws: bool) returns (ok: bool)
      requires isTransactionActive
      modifies this`isTransactionActive
      ensures ok == !throws
      ensures isTransactionActive == !ok
    {
      ok := !throws;
      if ok { isTransactionActive := false; }
    }

    /** A rollback puts the snapshot back; one that throws leaves the transaction open. */
    method RollbackTransaction(throws: bool) returns (ok: bool)
      requires isTransactionActive && table.Valid()
      requires KeyedById(snapshot)
      modifies this`isTransactionActive, this`rollbacks, table
      ensures table.Valid()
      ensures ok == !throws
      ensures rollbacks == old(rollbacks) + 1
      ensures isTransactionActive == !ok
      ensures table.rows == if ok then snapshot else old(table.rows)
    {
      rollbacks := rollbacks + 1;
      ok := !throws;
      if ok {
        table.rows := snapshot;
        isTransactionActive := false;
      }
    }

    /** The runner counts as released even when handing the connection back throws. */
    method Release(throws: bool) returns (ok: bool)
      requires !isReleased
      modifies this`isReleased, this`releases
      ensures ok == !throws
      ensures isReleased && releases == old(releases) + 1
    {
      isReleased := true;
      releases := releases + 1;
      ok := !throws;
    }
  }

  /** What the consumer told the broker about the message it was handed. */
  datatype BrokerCall = Ack | Nack

  /** The broker channel of one consumed message; records the calls that returned. */
  class BrokerChannel {
    var calls: seq<BrokerCall>

    constructor ()
      ensures calls == []
    {
      calls := [];
    }

    method Ack(throws: bool) returns (ok: bool)
      modifies this
      ensures ok == !throws
      ensures calls == if ok then old(calls) + [BrokerCall.Ack] else old(calls)
    {
      ok := !throws;
      if ok { calls := calls + [BrokerCall.Ack]; }
    }

    method Nack(throws: bool) returns (ok: bool)
      modifies this
      ensures ok == !throws
      ensures calls == if ok then old(calls) + [BrokerCall.Nack] else old(calls)
    {
      ok := !throws;
      if ok { calls := calls + [BrokerCall.Nack]; }
    }
  }

  /** An event published to the kitchen. */
  datatype DispatchEvent = OrderDispatched(orders: seq<Order>)

  /** The client that publishes to the kitchen; records the events it accepted. */
  class KitchenClient {
    var emitted: seq<DispatchEvent>

    constructor ()
      ensures emitted == []
    {
      emitted := [];
    }

    method Emit(event: DispatchEvent, throws: bool) returns (ok: bool)
      modifies this
      ensures ok == !throws
      ensures emitted == if ok then old(emitted) + [event] else old(emitted)
    {
      ok := !throws;
      if ok { emitted := emitted + [event]; }
    }
  }
}
