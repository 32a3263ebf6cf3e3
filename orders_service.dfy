/**
 * `OrdersService`: bulk creation followed by one dispatch event, lookup by id, and the
 * consumer of status-change messages that applies a batch in one transaction and acks
 * or nacks the message depending on how the transaction ended.
 */
module Service {
  import opened Wrappers
  import opened Orders
  import opened Collaborators

  /** The calls of `handleOrderChangeStatus` that can throw; `UpdateAt(i)` is the update of the i-th command. */
  datatype Step =
    | Connect
    | StartTransaction
    | UpdateAt(index: nat)
    | Commit
    | AckMessage
    | Rollback
    | NackMessage
    | ReleaseRunner

  /** The calls of `createBulkOrders` that can throw. */
  datatype BulkStep = CreateEntities | SaveEntities | EmitEvent

  datatype HttpError = InternalServerError(message: string)

  datatype BulkCreated = BulkCreated(message: string, orders: seq<Order>)

  /** How the handler left: normally, or with an exception thrown to its caller. */
  datatype Outcome = Returned | Threw

  const DISPATCH_SUCCEEDED: string := "Order dispatched successfully"
  const DISPATCH_FAILED: string := "Failed to dispatch orders"

  // ---------------------------------------------------------------------------
  // Which path a status-change message takes, given the calls that throw

  /** The transaction was opened: neither `connect` nor `startTransaction` threw. */
  predicate TransactionStarted(faults: set<Step>)
  {
    Connect !in faults && StartTransaction !in faults
  }

  predicate UpdatesSucceed(faults: set<Step>, n: nat)
  {
    forall i: nat :: i < n ==> UpdateAt(i) !in faults
  }

  /** Every update of the batch and the commit returned. */
  predicate Committed(faults: set<Step>, n: nat)
  {
    TransactionStarted(faults) && UpdatesSucceed(faults, n) && Commit !in faults
  }

  predicate Acked(faults: set<Step>, n: nat)
  {
    Committed(faults, n) && AckMessage !in faults
  }

  /** The catch block finds the transaction still active. */
  predicate RollsBack(faults: set<Step>, n: nat)
  {
    TransactionStarted(faults) && !Committed(faults, n)
  }

  predicate RollbackThrows(faults: set<Step>, n: nat)
  {
    RollsBack(faults, n) && Rollback in faults
  }

  /** The catch block reaches `nack`: something threw, and no rollback threw first. */
  predicate NackAttempted(faults: set<Step>, n: nat)
  {
    !Acked(faults, n) && !RollbackThrows(faults, n)
  }

  predicate Nacked(faults: set<Step>, n: nat)
  {
    NackAttempted(faults, n) && NackMessage !in faults
  }

  predicate HandlerThrows(faults: set<Step>, n: nat)
  {
    RollbackThrows(faults, n) || (NackAttempted(faults, n) && NackMessage in faults) || ReleaseRunner in faults
  }

  /**
   * A message the handler neither acks nor nacks is never dropped silently: the handler
   * throws on that path. (That a message is never both acked and nacked, and is acked only
   * after a commit, holds by the definitions of Acked and Nacked.)
   */
  lemma AckOnlyAfterCommit(faults: set<Step>, n: nat)
    ensures !Acked(faults, n) && !Nacked(faults, n) ==> HandlerThrows(faults, n)
  {
  }

  class OrdersService {
    const orderRepository: OrderTable
    const kitchenClient: KitchenClient

    constructor (orderRepository: OrderTable, kitchenClient: KitchenClient)
      ensures this.orderRepository == orderRepository && this.kitchenClient == kitchenClient
    {
      this.orderRepository := orderRepository;
      this.kitchenClient := kitchenClient;
    }

    /**
     * Saves the batch, then publishes one ORDER_DISPATCHED event carrying the saved rows.
     * `ids` and `now` are what the store assigns; `faults` names the calls that throw.
     */
    method CreateBulkOrders(inputs: seq<OrderInput>, ids: seq<OrderId>, now: int, faults: set<BulkStep>)
      returns (r: Result<BulkCreated, HttpError>)
      requires orderRepository.Valid()
      requires |ids| == |inputs| && FreshIds(orderRepository.rows, ids)
      modifies orderRepository, kitchenClient
      ensures orderRepository.Valid()
      ensures var saved := NewOrders(inputs, ids, now, orderRepository.defaultStatus);
              var persisted := CreateEntities !in faults && SaveEntities !in faults;
              var dispatched := persisted && EmitEvent !in faults;
              orderRepository.rows == (if persisted then Inserted(old(orderRepository.rows), saved) else old(orderRepository.rows)) &&
              kitchenClient.emitted == (if dispatched then old(kitchenClient.emitted) + [OrderDispatched(saved)] else old(kitchenClient.emitted)) &&
              r == if dispatched then Ok(BulkCreated(DISPATCH_SUCCEEDED, saved)) else Err(InternalServerError(DISPATCH_FAILED))
    {
      if CreateEntities in faults {
        return Err(InternalServerError(DISPATCH_FAILED));
      }
      var ok, savedOrders := orderRepository.Save(inputs, ids, now, SaveEntities in faults);
      if !ok {
        return Err(InternalServerError(DISPATCH_FAILED));
      }
      ok := kitchenClient.Emit(OrderDispatched(savedOrders), EmitEvent in faults);
      if !ok {
        return Err(InternalServerError(DISPATCH_FAILED));
      }
      r := Ok(BulkCreated(DISPATCH_SUCCEEDED, savedOrders));
    }

    /** The order with that id, or nothing when there is none. */
    function GetOrderById(id: OrderId): (r: Option<Order>)
      reads orderRepository
      requires orderRepository.Valid()
      ensures r.Some? <==> id in orderRepository.rows
      ensures r.Some? ==> r.value.id == id && r.value == orderRepository.rows[id]
    {
      if id in orderRepository.rows then Some(orderRepository.rows[id]) else None
    }

    /**
     * Consumes one ORDER_STATUS_CHANGED message: applies `data` in one transaction,
     * commits and acks; on any exception rolls back if the transaction is still active
     * and nacks; releases the query runner on every path.
     */
    method HandleOrderChangeStatus(data: seq<StatusUpdate>, channel: BrokerChannel, faults: set<Step>)
      returns (outcome: Outcome, queryRunner: QueryRunner)
      requires orderRepository.Valid()
      modifies orderRepository, channel
      ensures fresh(queryRunner) && queryRunner.table == orderRepository
      ensures orderRepository.Valid()
      ensures queryRunner.isReleased && queryRunner.releases == 1
      ensures queryRunner.rollbacks == if RollsBack(faults, |data|) then 1 else 0
      ensures queryRunner.isTransactionActive == RollbackThrows(faults, |data|)
      ensures channel.calls == old(channel.calls) +
                (if Acked(faults, |data|) then [BrokerCall.Ack]
                 else if Nacked(faults, |data|) then [BrokerCall.Nack]
                 else [])
      ensures queryRunner.Durable() ==
                if Committed(faults, |data|) then ApplyAll(old(orderRepository.rows), data)
                else old(orderRepository.rows)
      ensures !RollbackThrows(faults, |data|) ==> orderRepository.rows == queryRunner.Durable()
      ensures outcome == if HandlerThrows(faults, |data|) then Threw else Returned
    {
      ghost var before := orderRepository.rows;
      queryRunner := new QueryRunner(orderRepository);

      // try
      var ok := queryRunner.Connect(Connect in faults);
      if ok {
        ok := queryRunner.StartTransaction(StartTransaction in faults);
      }
      if ok {
        var i := 0;
        while i < |data| && ok
          invariant 0 <= i <= |data|
          invariant queryRunner.isTransactionActive && queryRunner.snapshot == before
          invariant !queryRunner.isReleased && queryRunner.rollbacks == 0 && queryRunner.releases == 0
          invariant orderRepository.Valid()
          invariant orderRepository.rows == ApplyAll(before, data[..i])
          invariant UpdatesSucceed(faults, i)
          invariant !ok ==> i < |data| && UpdateAt(i) in faults
          invariant channel.calls == old(channel.calls)
          decreases |data| - i + (if ok then 1 else 0)
        {
          var command := data[i];
          ok := queryRunner.UpdateWhereId(command.id, UpdateData(command), UpdateAt(i) in faults);
          if ok {
            assert data[..i + 1][..i] == data[..i];
            i := i + 1;
          }
        }
        if ok {
          assert data[..i] == data;
          ok := queryRunner.CommitTransaction(Commit in faults);
        }
      }
      if ok {
        ok := channel.Ack(AckMessage in faults);
      }

      var threw := false;
      if !ok {
        // catch
        var rolledBack := true;
        if queryRunner.isTransactionActive {
          rolledBack := queryRunner.RollbackTransaction(Rollback in faults);
        }
        if rolledBack {
          var nacked := channel.Nack(NackMessage in faults);
          threw := !nacked;
        } else {
          threw := true;
        }
      }

      // finally
      if !queryRunner.isReleased {
        var released := queryRunner.Release(ReleaseRunner in faults);
        threw := threw || !released;
      }
      outcome := if threw then Threw else Returned;
    }
  }

  /**
   * At-least-once delivery: whatever a first delivery did short of a rollback that threw
   * (rolled back, never opened a transaction, or committed and then failed to ack), a
   * redelivery handled without failure, followed by a duplicate delivery, leaves the table
   * as one successful delivery would.
   */
  method Redelivery(service: OrdersService, data: seq<StatusUpdate>, firstFaults: set<Step>)
    requires service.orderRepository.Valid()
    requires !RollbackThrows(firstFaults, |data|)
    modifies service.orderRepository
    ensures service.orderRepository.rows == ApplyAll(old(service.orderRepository.rows), data)
  {
    ghost var original := service.orderRepository.rows;
    var channel := new BrokerChannel();
    var outcome, runner := service.HandleOrderChangeStatus(data, channel, firstFaults);
    ApplyAllIdempotent(original, data);
    outcome, runner := service.HandleOrderChangeStatus(data, channel, {});
    assert channel.calls[|channel.calls| - 1] == BrokerCall.Ack;
    outcome, runner := service.HandleOrderChangeStatus(data, channel, {});
  }
}
