/** The batch enqueue: one upsert statement whose rows are joined back to the inputs by message id or idempotency key. */
module OutboxEnqueue {
  import opened Common
  import opened OutboxRows
  import opened OutboxInvariants
  import opened OutboxRuns
  import OutboxContent

  /** A message to enqueue. `wellFormed` stands for its keys, its dates, its policy's name and its being new; the
      characters are those of the JSON texts of its context and its body. */
  datatype Input = Input(tenantId: string, messageId: string, idempotencyKey: Option<string>,
                         content: OutboxContent.Content, maxAttempts: int, expiresAt: Option<int>, availableAt: int,
                         updatedAt: int, wellFormed: bool, contextCharacters: nat, messageCharacters: nat)
  {
    function Id(): RowId {
      RowId(tenantId, messageId)
    }

    function Row(incarnation: nat): Row {
      OutboxRows.Row(content, idempotencyKey, incarnation, Pending, 0, maxAttempts, None, expiresAt, availableAt,
                     updatedAt, None)
    }
  }

  /** The column of the attempt bound holds 32 bits. */
  const MAX_INTEGER := 2147483647

  predicate HoldsKey(rows: map<RowId, Row>, id: RowId, input: Input) {
    id in rows && id.tenantId == input.tenantId && input.idempotencyKey.Some?
    && rows[id].idempotencyKey == input.idempotencyKey
  }

  ghost predicate KeyTaken(rows: map<RowId, Row>, input: Input) {
    exists id :: HoldsKey(rows, id, input)
  }

  ghost function Holder(rows: map<RowId, Row>, input: Input): (id: RowId)
    requires KeyTaken(rows, input)
    ensures HoldsKey(rows, id, input)
  {
    var id :| HoldsKey(rows, id, input); id
  }

  /** No two inputs of the batch share a message id or an idempotency key within a tenant. */
  ghost predicate NoRepeats(inputs: seq<Input>) {
    forall i, j :: 0 <= i < j < |inputs| && inputs[i].tenantId == inputs[j].tenantId ==>
                     && inputs[i].messageId != inputs[j].messageId
                     && (inputs[i].idempotencyKey.Some? ==> inputs[i].idempotencyKey != inputs[j].idempotencyKey)
  }

  datatype Batch = Batch(db: Database, ids: seq<RowId>)

  /** One input: the row that already has its key, or a new row; a taken message id is an error, as is a number the
      column cannot hold. */
  ghost function UpsertOne(b: Batch, input: Input): Option<Batch> {
    if input.maxAttempts > MAX_INTEGER then None
    else if KeyTaken(b.db.rows, input) then Some(Batch(b.db, b.ids + [Holder(b.db.rows, input)]))
    else if input.Id() in b.db.rows then None
    else
      var row := input.Row(|b.db.bounds|);
      Some(Batch(b.db.(rows := b.db.rows[input.Id() := row], bounds := b.db.bounds + [input.maxAttempts]),
                 b.ids + [input.Id()]))
  }

  /** The whole statement: an error in any input undoes all of them. */
  ghost function UpsertAll(db: Database, inputs: seq<Input>): Option<Batch> {
    if inputs == [] then Some(Batch(db, []))
    else
      var earlier := UpsertAll(db, inputs[..|inputs| - 1]);
      if earlier.None? then None else UpsertOne(earlier.value, inputs[|inputs| - 1])
  }

  predicate Matches(rows: map<RowId, Row>, input: Input, id: RowId)
    requires id in rows
  {
    id.tenantId == input.tenantId
    && (id.messageId == input.messageId
        || (input.idempotencyKey.Some? && rows[id].idempotencyKey == input.idempotencyKey))
  }

  function Matching(rows: map<RowId, Row>, input: Input, ids: seq<RowId>): seq<RowId>
    requires forall id <- ids :: id in rows
  {
    if ids == [] then []
    else (if Matches(rows, input, ids[0]) then [ids[0]] else []) + Matching(rows, input, ids[1..])
  }

  /** The rows the statement returns, in input order from input `k` on. */
  function Joined(rows: map<RowId, Row>, inputs: seq<Input>, ids: seq<RowId>, k: nat): seq<RowId>
    requires k <= |inputs| && forall id <- ids :: id in rows
    decreases |inputs| - k
  {
    if k == |inputs| then [] else Matching(rows, inputs[k], ids) + Joined(rows, inputs, ids, k + 1)
  }

  // ---- The upsert ----

  /** Input `i` found the row that had its key before the statement, or got a row of its own. */
  ghost predicate Resolved(db: Database, after: Database, input: Input, id: RowId) {
    && id in after.rows
    && if id in db.rows then HoldsKey(db.rows, id, input)
       else id == input.Id() && after.rows[id] == input.Row(after.rows[id].incarnation)
            && !KeyTaken(db.rows, input)
  }

  ghost predicate UpsertFacts(db: Database, inputs: seq<Input>, b: Batch) {
    && |b.ids| == |inputs|
    && (forall id <- db.rows :: id in b.db.rows && b.db.rows[id] == db.rows[id])
    && (forall i :: 0 <= i < |inputs| ==> Resolved(db, b.db, inputs[i], b.ids[i]))
    && (forall id <- b.db.rows :: id in db.rows || id in b.ids)
    && b.db.issued == db.issued
    && Inv(b.db) && UniqueKeys(b.db.rows)
  }

  lemma RepeatsOfPrefix(inputs: seq<Input>)
    requires inputs != [] && NoRepeats(inputs)
    ensures NoRepeats(inputs[..|inputs| - 1])
    ensures forall i :: 0 <= i < |inputs| - 1 && inputs[i].tenantId == inputs[|inputs| - 1].tenantId ==>
              && inputs[i].messageId != inputs[|inputs| - 1].messageId
              && (inputs[i].idempotencyKey.Some? ==> inputs[i].idempotencyKey != inputs[|inputs| - 1].idempotencyKey)
  {
  }

  /** A key of the last input is held only by a row from before the statement. */
  lemma HolderIsOld(db: Database, inputs: seq<Input>, b: Batch, id: RowId)
    requires inputs != [] && NoRepeats(inputs) && UpsertFacts(db, inputs[..|inputs| - 1], b)
    requires HoldsKey(b.db.rows, id, inputs[|inputs| - 1])
    ensures id in db.rows
  {
  }

  lemma KeyStaysTaken(rows: map<RowId, Row>, more: map<RowId, Row>, input: Input)
    requires forall id <- rows :: id in more && more[id] == rows[id]
    ensures KeyTaken(rows, input) ==> KeyTaken(more, input)
  {
    if KeyTaken(rows, input) {
      assert HoldsKey(more, Holder(rows, input), input);
    }
  }

  lemma InsertFacts(db: Database, inputs: seq<Input>, b: Batch)
    requires inputs != [] && NoRepeats(inputs) && UpsertFacts(db, inputs[..|inputs| - 1], b)
    requires var last := inputs[|inputs| - 1];
             0 < last.maxAttempts && last.Id() !in b.db.rows && !KeyTaken(b.db.rows, last)
    ensures
      var last := inputs[|inputs| - 1];
      var st := Insert(last.Id(), last.Row(|b.db.bounds|));
      && Enabled(b.db, st)
      && UpsertFacts(db, inputs, Batch(Execute(b.db, st), b.ids + [last.Id()]))
  {
    var last := inputs[|inputs| - 1];
    var row := last.Row(|b.db.bounds|);
    var st := Insert(last.Id(), row);
    forall id <- b.db.rows | row.idempotencyKey.Some? && id.tenantId == last.tenantId
      ensures b.db.rows[id].idempotencyKey != row.idempotencyKey
    {
      assert !HoldsKey(b.db.rows, id, last);
    }
    StatementKeepsInv(b.db, st);
    StatementKeepsUniqueKeys(b.db, st);
    forall i | 0 <= i < |inputs|
      ensures Resolved(db, Execute(b.db, st), inputs[i], (b.ids + [last.Id()])[i])
    {
      InsertResolves(db, inputs, b, i);
    }
  }

  lemma InsertResolves(db: Database, inputs: seq<Input>, b: Batch, i: nat)
    requires inputs != [] && UpsertFacts(db, inputs[..|inputs| - 1], b) && i < |inputs|
    requires var last := inputs[|inputs| - 1]; last.Id() !in b.db.rows && !KeyTaken(b.db.rows, last)
    ensures
      var last := inputs[|inputs| - 1];
      var rows := b.db.rows[last.Id() := last.Row(|b.db.bounds|)];
      Resolved(db, b.db.(rows := rows, bounds := b.db.bounds + [last.maxAttempts]), inputs[i], (b.ids + [last.Id()])[i])
  {
    if i < |inputs| - 1 {
      assert inputs[..|inputs| - 1][i] == inputs[i];
      assert Resolved(db, b.db, inputs[i], b.ids[i]);
    } else {
      KeyStaysTaken(db.rows, b.db.rows, inputs[i]);
    }
  }

  lemma {:induction false} UpsertAllFacts(db: Database, inputs: seq<Input>)
    requires Inv(db) && UniqueKeys(db.rows) && NoRepeats(inputs)
    requires forall input <- inputs :: 0 < input.maxAttempts
    requires UpsertAll(db, inputs).Some?
    ensures UpsertFacts(db, inputs, UpsertAll(db, inputs).value)
  {
    if inputs != [] {
      var n := |inputs| - 1;
      RepeatsOfPrefix(inputs);
      UpsertAllFacts(db, inputs[..n]);
      var b := UpsertAll(db, inputs[..n]).value;
      if KeyTaken(b.db.rows, inputs[n]) {
        CollisionFacts(db, inputs, b);
      } else {
        InsertFacts(db, inputs, b);
      }
    }
  }

  lemma CollisionFacts(db: Database, inputs: seq<Input>, b: Batch)
    requires inputs != [] && NoRepeats(inputs) && UpsertFacts(db, inputs[..|inputs| - 1], b)
    requires inputs[|inputs| - 1].maxAttempts <= MAX_INTEGER && KeyTaken(b.db.rows, inputs[|inputs| - 1])
    ensures UpsertOne(b, inputs[|inputs| - 1]).Some?
    ensures UpsertFacts(db, inputs, UpsertOne(b, inputs[|inputs| - 1]).value)
  {
    var last := inputs[|inputs| - 1];
    var c := UpsertOne(b, last).value;
    HolderIsOld(db, inputs, b, c.ids[|inputs| - 1]);
    forall i | 0 <= i < |inputs|
      ensures Resolved(db, c.db, inputs[i], c.ids[i])
    {
      if i < |inputs| - 1 {
        assert inputs[..|inputs| - 1][i] == inputs[i];
        assert Resolved(db, b.db, inputs[i], b.ids[i]);
      }
    }
  }

  ghost predicate Upsertable(rows: map<RowId, Row>, input: Input) {
    input.maxAttempts <= MAX_INTEGER && (KeyTaken(rows, input) || input.Id() !in rows)
  }

  lemma NewRowHasAnInput(db: Database, inputs: seq<Input>, b: Batch, id: RowId) returns (k: nat)
    requires UpsertFacts(db, inputs, b) && id in b.db.rows && id !in db.rows
    ensures k < |inputs| && inputs[k].Id() == id && Resolved(db, b.db, inputs[k], id)
  {
    k :| k < |b.ids| && b.ids[k] == id;
    assert Resolved(db, b.db, inputs[k], id);
  }

  /** The earlier inputs change nothing for the last one. */
  lemma LastIsUpsertable(db: Database, inputs: seq<Input>, b: Batch)
    requires inputs != [] && NoRepeats(inputs) && UpsertFacts(db, inputs[..|inputs| - 1], b)
    ensures Upsertable(b.db.rows, inputs[|inputs| - 1]) <==> Upsertable(db.rows, inputs[|inputs| - 1])
  {
    var last := inputs[|inputs| - 1];
    KeyStaysTaken(db.rows, b.db.rows, last);
    if KeyTaken(b.db.rows, last) {
      HolderIsOld(db, inputs, b, Holder(b.db.rows, last));
      assert HoldsKey(db.rows, Holder(b.db.rows, last), last);
    }
    RepeatsOfPrefix(inputs);
    if last.Id() in b.db.rows && last.Id() !in db.rows {
      var k := NewRowHasAnInput(db, inputs[..|inputs| - 1], b, last.Id());
    }
  }

  /** The statement succeeds exactly when every input has a number that fits and finds its key taken or its id free. */
  lemma {:induction false} UpsertsExactly(db: Database, inputs: seq<Input>)
    requires Inv(db) && UniqueKeys(db.rows) && NoRepeats(inputs)
    requires forall input <- inputs :: 0 < input.maxAttempts
    ensures UpsertAll(db, inputs).Some? <==> forall input <- inputs :: Upsertable(db.rows, input)
  {
    if inputs != [] {
      var n := |inputs| - 1;
      RepeatsOfPrefix(inputs);
      UpsertsExactly(db, inputs[..n]);
      assert inputs == inputs[..n] + [inputs[n]];
      if UpsertAll(db, inputs[..n]).Some? {
        UpsertAllFacts(db, inputs[..n]);
        LastIsUpsertable(db, inputs, UpsertAll(db, inputs[..n]).value);
      }
    }
  }

  /** What the row an input is answered with says. */
  ghost function ContentFound(rows: map<RowId, Row>, input: Input): OutboxContent.Content {
    if KeyTaken(rows, input) then rows[Holder(rows, input)].content else input.content
  }

  lemma FoundContent(db: Database, inputs: seq<Input>, b: Batch, i: nat)
    requires UniqueKeys(db.rows) && UpsertFacts(db, inputs, b) && i < |inputs|
    ensures b.db.rows[b.ids[i]].content == ContentFound(db.rows, inputs[i])
  {
    assert Resolved(db, b.db, inputs[i], b.ids[i]);
    if b.ids[i] in db.rows {
      assert HoldsKey(db.rows, b.ids[i], inputs[i]);
      assert b.ids[i] == Holder(db.rows, inputs[i]);
    }
  }

  // ---- The join ----

  lemma {:induction false} MatchingCount(rows: map<RowId, Row>, input: Input, ids: seq<RowId>, i: nat)
    requires (forall id <- ids :: id in rows) && i < |ids| && Matches(rows, input, ids[i])
    ensures 1 <= |Matching(rows, input, ids)|
    ensures (forall j :: 0 <= j < |ids| && j != i ==> !Matches(rows, input, ids[j])) ==>
              Matching(rows, input, ids) == [ids[i]]
    ensures (exists j :: 0 <= j < |ids| && j != i && Matches(rows, input, ids[j])) ==>
              2 <= |Matching(rows, input, ids)|
  {
    if i == 0 {
      if j :| 0 < j < |ids| && Matches(rows, input, ids[j]) {
        MatchingCount(rows, input, ids[1..], j - 1);
      } else {
        NothingMatches(rows, input, ids[1..]);
      }
    } else {
      MatchingCount(rows, input, ids[1..], i - 1);
      if Matches(rows, input, ids[0]) {
      } else if j :| 0 <= j < |ids| && j != i && Matches(rows, input, ids[j]) {
        assert ids[1..][j - 1] == ids[j];
      } else {
        assert forall j :: 0 <= j < |ids| - 1 && j != i - 1 ==> !Matches(rows, input, ids[1..][j]);
      }
    }
  }

  lemma {:induction false} NothingMatches(rows: map<RowId, Row>, input: Input, ids: seq<RowId>)
    requires (forall id <- ids :: id in rows) && forall j :: 0 <= j < |ids| ==> !Matches(rows, input, ids[j])
    ensures Matching(rows, input, ids) == []
  {
    if ids != [] {
      assert !Matches(rows, input, ids[0]);
      assert forall j :: 0 <= j < |ids| - 1 ==> ids[1..][j] == ids[j + 1];
      NothingMatches(rows, input, ids[1..]);
    }
  }

  ghost predicate OwnRows(rows: map<RowId, Row>, inputs: seq<Input>, ids: seq<RowId>) {
    |ids| == |inputs| && (forall id <- ids :: id in rows)
    && forall i :: 0 <= i < |inputs| ==> Matches(rows, inputs[i], ids[i])
  }

  /** Input `i` also matches a row that input `j` resolved to. */
  ghost predicate Crossed(rows: map<RowId, Row>, inputs: seq<Input>, ids: seq<RowId>, i: nat, j: nat)
    requires OwnRows(rows, inputs, ids)
  {
    i < |inputs| && j < |inputs| && i != j && Matches(rows, inputs[i], ids[j])
  }

  /** Every input joins a row, so the row count tells exactly whether any input joins two. */
  lemma {:induction false} JoinedCount(rows: map<RowId, Row>, inputs: seq<Input>, ids: seq<RowId>, k: nat)
    requires OwnRows(rows, inputs, ids) && k <= |inputs|
    ensures |inputs| - k <= |Joined(rows, inputs, ids, k)|
    ensures |Joined(rows, inputs, ids, k)| == |inputs| - k <==>
              forall i: nat, j: nat :: k <= i ==> !Crossed(rows, inputs, ids, i, j)
    ensures |Joined(rows, inputs, ids, k)| == |inputs| - k ==> Joined(rows, inputs, ids, k) == ids[k..]
    decreases |inputs| - k
  {
    if k < |inputs| {
      JoinedCount(rows, inputs, ids, k + 1);
      MatchingCount(rows, inputs[k], ids, k);
      if j: nat :| Crossed(rows, inputs, ids, k, j) {
      } else {
        forall j | 0 <= j < |ids| && j != k
          ensures !Matches(rows, inputs[k], ids[j])
        {
          assert !Crossed(rows, inputs, ids, k, j);
        }
      }
    }
  }

  // ---- When the statement's answer is usable ----

  lemma ResolvedMatches(db: Database, inputs: seq<Input>, b: Batch)
    requires UpsertFacts(db, inputs, b)
    ensures OwnRows(b.db.rows, inputs, b.ids)
  {
  }

  /** Input `i` bears the id of a stored row that has the idempotency key of input `j`. */
  predicate Crosses(rows: map<RowId, Row>, inputs: seq<Input>, i: nat, j: nat) {
    i < |inputs| && j < |inputs| && i != j && HoldsKey(rows, inputs[i].Id(), inputs[j])
  }

  ghost predicate Crossing(rows: map<RowId, Row>, inputs: seq<Input>) {
    exists i: nat, j: nat :: Crosses(rows, inputs, i, j)
  }

  lemma CrossedExactly(db: Database, inputs: seq<Input>, b: Batch, i: nat, j: nat)
    requires UniqueKeys(db.rows) && UpsertFacts(db, inputs, b) && NoRepeats(inputs)
    requires OwnRows(b.db.rows, inputs, b.ids)
    ensures Crossed(b.db.rows, inputs, b.ids, i, j) <==> Crosses(db.rows, inputs, i, j)
  {
    if i < |inputs| && j < |inputs| && i != j {
      assert Resolved(db, b.db, inputs[j], b.ids[j]);
      if HoldsKey(db.rows, inputs[i].Id(), inputs[j]) {
        assert KeyTaken(db.rows, inputs[j]);
      }
    }
  }

  /** The row count equals the batch size exactly when no input bears the id of a row stored under another input's key.
      Then position `i` of the answer is the row of input `i`. */
  lemma AnswerIsUsableExactly(db: Database, inputs: seq<Input>, b: Batch)
    requires UniqueKeys(db.rows) && UpsertFacts(db, inputs, b) && NoRepeats(inputs)
    requires OwnRows(b.db.rows, inputs, b.ids)
    ensures |Joined(b.db.rows, inputs, b.ids, 0)| == |inputs| <==> !Crossing(db.rows, inputs)
    ensures |Joined(b.db.rows, inputs, b.ids, 0)| == |inputs| ==> Joined(b.db.rows, inputs, b.ids, 0) == b.ids
  {
    JoinedCount(b.db.rows, inputs, b.ids, 0);
    forall i: nat, j: nat
      ensures Crossed(b.db.rows, inputs, b.ids, i, j) <==> Crosses(db.rows, inputs, i, j)
    {
      CrossedExactly(db, inputs, b, i, j);
    }
  }
}
