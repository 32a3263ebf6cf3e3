/**
 * The order entity, the inbound status-update command and the meaning of a batch of
 * such commands applied to the order table (the `for` loop of `handleOrderChangeStatus`
 * stated as a fold over the commands, with its properties proved against a
 * per-order, last-command-wins reference description).
 */
module Orders {
  import opened Wrappers

  type OrderId = string
  /** The status column; an integer enum value. */
  type StatusId = int

  /** One row of the order table (only the columns the service reads or writes, plus the
      caller-supplied content, which the service copies through unchanged). */
  datatype Order = Order(
    id: OrderId,
    statusId: StatusId,
    recipeName: Option<string>,
    createdAt: int,
    details: string)

  /** What a caller supplies to create one order; opaque to the service. */
  datatype OrderInput = OrderInput(details: string)

  /** One element of an ORDER_STATUS_CHANGED message. */
  datatype StatusUpdate = StatusUpdate(id: OrderId, statusId: StatusId, recipeName: Option<string>)

  /** The SET part of an UPDATE statement: `recipeName == None` means the column is not set. */
  datatype Patch = Patch(statusId: StatusId, recipeName: Option<string>)

  type Table = map<OrderId, Order>

  /** JavaScript truthiness of an optional string: present and non-empty. */
  predicate RecipeGiven(recipeName: Option<string>)
  {
    recipeName.Some? && recipeName.value != ""
  }

  /** Every row is stored under its own id. */
  ghost predicate KeyedById(rows: Table)
  {
    forall id :: id in rows ==> rows[id].id == id
  }

  /** The update built for one command: `statusId` always, `recipeName` only when truthy. */
  function UpdateData(u: StatusUpdate): (p: Patch)
    ensures p.statusId == u.statusId
    ensures p.recipeName.Some? <==> RecipeGiven(u.recipeName)
    ensures p.recipeName.Some? ==> p.recipeName == u.recipeName
  {
    if RecipeGiven(u.recipeName) then Patch(u.statusId, u.recipeName) else Patch(u.statusId, None)
  }

  function Patched(o: Order, p: Patch): Order
  {
    o.(statusId := p.statusId,
       recipeName := if p.recipeName.Some? then p.recipeName else o.recipeName)
  }

  /** `UPDATE order SET <p> WHERE id = <id>`: at most the one row with that id changes. */
  function UpdateWhereId(rows: Table, id: OrderId, p: Patch): (r: Table)
    ensures r.Keys == rows.Keys
    ensures forall k :: k in rows && k != id ==> r[k] == rows[k]
    ensures id !in rows ==> r == rows
  {
    if id in rows then rows[id := Patched(rows[id], p)] else rows
  }

  /** One iteration of the loop: the update for `u` restricted to `u.id`. */
  function ApplyUpdate(rows: Table, u: StatusUpdate): Table
  {
    UpdateWhereId(rows, u.id, UpdateData(u))
  }

  /** The table after the commands of a batch have been applied in list order. */
  function ApplyAll(rows: Table, updates: seq<StatusUpdate>): (r: Table)
    decreases |updates|
    ensures r.Keys == rows.Keys
    ensures forall k :: k in rows ==>
              r[k].id == rows[k].id && r[k].createdAt == rows[k].createdAt && r[k].details == rows[k].details
  {
    if updates == [] then rows
    else ApplyUpdate(ApplyAll(rows, updates[..|updates| - 1]), updates[|updates| - 1])
  }

  // ---------------------------------------------------------------------------
  // Creating orders in bulk

  /** The rows `create` + `save` produce: the store assigns `ids` and the insert time `createdAt`;
      the status and recipe columns take their defaults. */
  function NewOrders(inputs: seq<OrderInput>, ids: seq<OrderId>, createdAt: int, status: StatusId): seq<Order>
    requires |ids| == |inputs|
  {
    seq(|inputs|, i requires 0 <= i < |inputs| => Order(ids[i], status, None, createdAt, inputs[i].details))
  }

  /** The ids the store hands out are new to the table and pairwise distinct. */
  ghost predicate FreshIds(rows: Table, ids: seq<OrderId>)
  {
    (forall i :: 0 <= i < |ids| ==> ids[i] !in rows) &&
    (forall i, j :: 0 <= i < j < |ids| ==> ids[i] != ids[j])
  }

  /** The table after inserting a batch of rows, each under its id. */
  function Inserted(rows: Table, batch: seq<Order>): Table
  {
    if batch == [] then rows
    else Inserted(rows, batch[..|batch| - 1])[batch[|batch| - 1].id := batch[|batch| - 1]]
  }

  /**
   * Inserting a batch with fresh, distinct ids adds exactly one row per element, under
   * its id, and leaves every existing row alone.
   */
  lemma {:induction false} InsertedSpec(rows: Table, batch: seq<Order>)
    requires FreshIds(rows, seq(|batch|, i requires 0 <= i < |batch| => batch[i].id))
    ensures var r := Inserted(rows, batch);
            |r| == |rows| + |batch| &&
            (forall k :: k in rows ==> k in r && r[k] == rows[k]) &&
            (forall i :: 0 <= i < |batch| ==> batch[i].id in r && r[batch[i].id] == batch[i]) &&
            (forall k :: k in r ==> k in rows || exists i :: 0 <= i < |batch| && batch[i].id == k)
    decreases |batch|
  {
    if batch != [] {
      var n := |batch|;
      var prefix := batch[..n - 1];
      var ids := seq(|batch|, i requires 0 <= i < |batch| => batch[i].id);
      var prefixIds := seq(|prefix|, i requires 0 <= i < |prefix| => prefix[i].id);
      assert FreshIds(rows, prefixIds) by {
        forall i | 0 <= i < |prefixIds| ensures prefixIds[i] == ids[i] { }
      }
      InsertedSpec(rows, prefix);
      var before := Inserted(rows, prefix);
      var last := batch[n - 1];
      assert last.id == ids[n - 1];
      assert last.id !in before by {
        forall i | 0 <= i < n - 1 ensures prefix[i].id != last.id {
          assert prefix[i].id == ids[i];
        }
      }
      forall i | 0 <= i < n - 1 ensures prefix[i] == batch[i] && batch[i].id != last.id {
        assert ids[i] != ids[n - 1];
      }
    }
  }

  /** The rows of a bulk insert are stored under their own ids. */
  lemma NewOrdersKeyedById(rows: Table, inputs: seq<OrderInput>, ids: seq<OrderId>, createdAt: int, status: StatusId)
    requires |ids| == |inputs|
    requires KeyedById(rows) && FreshIds(rows, ids)
    ensures var batch := NewOrders(inputs, ids, createdAt, status);
            var r := Inserted(rows, batch);
            KeyedById(r) && |r| == |rows| + |inputs| &&
            (forall k :: k in rows ==> k in r && r[k] == rows[k])
  {
    var batch := NewOrders(inputs, ids, createdAt, status);
    assert seq(|batch|, i requires 0 <= i < |batch| => batch[i].id) == ids;
    InsertedSpec(rows, batch);
  }

  // ---------------------------------------------------------------------------
  // Reference description of a batch, order by order

  /** `j` is the last command of the batch that addresses `id`. */
  ghost predicate LastFor(updates: seq<StatusUpdate>, id: OrderId, j: int)
  {
    0 <= j < |updates| && updates[j].id == id &&
    forall k :: j < k < |updates| ==> updates[k].id != id
  }

  /** `j` is the last command addressing `id` that carries a non-empty recipe name. */
  ghost predicate LastRecipeFor(updates: seq<StatusUpdate>, id: OrderId, j: int)
  {
    0 <= j < |updates| && updates[j].id == id && RecipeGiven(updates[j].recipeName) &&
    forall k :: j < k < |updates| && updates[k].id == id ==> !RecipeGiven(updates[k].recipeName)
  }

  ghost predicate Addressed(updates: seq<StatusUpdate>, id: OrderId)
  {
    exists k :: 0 <= k < |updates| && updates[k].id == id
  }

  ghost predicate RecipeAddressed(updates: seq<StatusUpdate>, id: OrderId)
  {
    exists k :: 0 <= k < |updates| && updates[k].id == id && RecipeGiven(updates[k].recipeName)
  }

  /** A batch applies as its prefix followed by its suffix: commands take effect in list order. */
  lemma {:induction false} ApplyAllConcat(rows: Table, a: seq<StatusUpdate>, b: seq<StatusUpdate>)
    ensures ApplyAll(rows, a + b) == ApplyAll(ApplyAll(rows, a), b)
    decreases |b|
  {
    if b == [] {
      assert a + b == a;
    } else {
      var n := |b|;
      assert (a + b)[..|a + b| - 1] == a + b[..n - 1];
      assert (a + b)[|a + b| - 1] == b[n - 1];
      ApplyAllConcat(rows, a, b[..n - 1]);
    }
  }

  /** An order that no command of the batch names is left exactly as it was. */
  lemma {:induction false} UntouchedOrder(rows: Table, updates: seq<StatusUpdate>, id: OrderId)
    requires id in rows
    requires !Addressed(updates, id)
    ensures ApplyAll(rows, updates)[id] == rows[id]
    decreases |updates|
  {
    if updates != [] {
      var n := |updates|;
      var prefix := updates[..n - 1];
      assert !Addressed(prefix, id) by {
        forall k | 0 <= k < n - 1 ensures prefix[k].id != id {
          assert prefix[k] == updates[k];
        }
      }
      UntouchedOrder(rows, prefix, id);
      assert updates[n - 1].id != id;
    }
  }

  /** A command naming an id with no row changes nothing. */
  lemma UnknownIdIsNoOp(rows: Table, u: StatusUpdate)
    requires u.id !in rows
    ensures ApplyUpdate(rows, u) == rows
  {
  }

  /** The final status of an addressed order is that of the last command naming it. */
  lemma {:induction false} LastStatusWins(rows: Table, updates: seq<StatusUpdate>, id: OrderId, j: int)
    requires id in rows
    requires LastFor(updates, id, j)
    ensures ApplyAll(rows, updates)[id].statusId == updates[j].statusId
    decreases |updates|
  {
    var n := |updates|;
    var prefix := updates[..n - 1];
    if j < n - 1 {
      assert LastFor(prefix, id, j) by {
        forall k | j < k < |prefix| ensures prefix[k].id != id {
          assert prefix[k] == updates[k];
        }
      }
      LastStatusWins(rows, prefix, id, j);
      assert updates[n - 1].id != id;
    }
  }

  /** The final recipe name of an order is the last non-empty one supplied for it. */
  lemma {:induction false} LastRecipeWins(rows: Table, updates: seq<StatusUpdate>, id: OrderId, j: int)
    requires id in rows
    requires LastRecipeFor(updates, id, j)
    ensures ApplyAll(rows, updates)[id].recipeName == updates[j].recipeName
    decreases |updates|
  {
    var n := |updates|;
    var prefix := updates[..n - 1];
    if j < n - 1 {
      assert LastRecipeFor(prefix, id, j) by {
        forall k | j < k < |prefix| && prefix[k].id == id ensures !RecipeGiven(prefix[k].recipeName) {
          assert prefix[k] == updates[k];
        }
      }
      LastRecipeWins(rows, prefix, id, j);
      assert updates[n - 1].id != id || !RecipeGiven(updates[n - 1].recipeName);
    }
  }

  /** With no non-empty recipe name for an order in the batch, its stored recipe name stays. */
  lemma {:induction false} RecipeKept(rows: Table, updates: seq<StatusUpdate>, id: OrderId)
    requires id in rows
    requires !RecipeAddressed(updates, id)
    ensures ApplyAll(rows, updates)[id].recipeName == rows[id].recipeName
    decreases |updates|
  {
    if updates != [] {
      var n := |updates|;
      var prefix := updates[..n - 1];
      assert !RecipeAddressed(prefix, id) by {
        forall k | 0 <= k < n - 1 && prefix[k].id == id ensures !RecipeGiven(prefix[k].recipeName) {
          assert prefix[k] == updates[k];
        }
      }
      RecipeKept(rows, prefix, id);
      assert updates[n - 1].id != id || !RecipeGiven(updates[n - 1].recipeName);
    }
  }

  /** An addressed id has a last command addressing it. */
  lemma {:induction false} LastForExists(updates: seq<StatusUpdate>, id: OrderId) returns (j: int)
    requires Addressed(updates, id)
    ensures LastFor(updates, id, j)
    decreases |updates|
  {
    var n := |updates|;
    if updates[n - 1].id == id {
      j := n - 1;
    } else {
      var prefix := updates[..n - 1];
      assert Addressed(prefix, id) by {
        var k :| 0 <= k < n && updates[k].id == id;
        assert k < n - 1 && prefix[k] == updates[k];
      }
      j := LastForExists(prefix, id);
      assert prefix[j] == updates[j];
      forall k | j < k < n ensures updates[k].id != id {
        if k < n - 1 { assert prefix[k] == updates[k]; }
      }
    }
  }

  /** An id given a non-empty recipe name has a last command doing so. */
  lemma {:induction false} LastRecipeForExists(updates: seq<StatusUpdate>, id: OrderId) returns (j: int)
    requires RecipeAddressed(updates, id)
    ensures LastRecipeFor(updates, id, j)
    decreases |updates|
  {
    var n := |updates|;
    if updates[n - 1].id == id && RecipeGiven(updates[n - 1].recipeName) {
      j := n - 1;
    } else {
      var prefix := updates[..n - 1];
      assert RecipeAddressed(prefix, id) by {
        var k :| 0 <= k < n && updates[k].id == id && RecipeGiven(updates[k].recipeName);
        assert k < n - 1 && prefix[k] == updates[k];
      }
      j := LastRecipeForExists(prefix, id);
      assert prefix[j] == updates[j];
      forall k | j < k < n && updates[k].id == id ensures !RecipeGiven(updates[k].recipeName) {
        if k < n - 1 { assert prefix[k] == updates[k]; }
      }
    }
  }

  /**
   * Applying a batch twice leaves the table as applying it once: a message redelivered
   * after it was already committed does not change the table again.
   */
  lemma ApplyAllIdempotent(rows: Table, updates: seq<StatusUpdate>)
    ensures ApplyAll(ApplyAll(rows, updates), updates) == ApplyAll(rows, updates)
  {
    var once := ApplyAll(rows, updates);
    var twice := ApplyAll(once, updates);
    forall id | id in rows ensures twice[id] == once[id] {
      if Addressed(updates, id) {
        var j := LastForExists(updates, id);
        LastStatusWins(rows, updates, id, j);
        LastStatusWins(once, updates, id, j);
      } else {
        UntouchedOrder(rows, updates, id);
        UntouchedOrder(once, updates, id);
      }
      if RecipeAddressed(updates, id) {
        var j := LastRecipeForExists(updates, id);
        LastRecipeWins(rows, updates, id, j);
        LastRecipeWins(once, updates, id, j);
      } else {
        RecipeKept(rows, updates, id);
        RecipeKept(once, updates, id);
      }
    }
  }

  /** Applying a batch keeps every row stored under its own id. */
  lemma ApplyAllKeyedById(rows: Table, updates: seq<StatusUpdate>)
    requires KeyedById(rows)
    ensures KeyedById(ApplyAll(rows, updates))
  {
  }

  /** The two-command batch: order A gets status 2; order B gets status 3 and recipe "spicy". */
  lemma TwoCommandExample(rows: Table, a: Order, b: Order)
    requires a.id == "A" && b.id == "B"
    requires rows == map["A" := a, "B" := b]
    ensures var updates := [StatusUpdate("A", 2, None), StatusUpdate("B", 3, Some("spicy"))];
            var r := ApplyAll(rows, updates);
            r["A"] == a.(statusId := 2) && r["B"] == b.(statusId := 3, recipeName := Some("spicy"))
  {
  }
}
