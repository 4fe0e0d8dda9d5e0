/**
 * The time-block table: a user's day plan as blocks with a position, each
 * optionally linked to a task.
 */
module TimeBlockService {
  import opened Wrappers
  import opened Seqs
  import opened Store

  /** The fields a caller supplies for a new block. */
  datatype BlockDto = BlockDto(order: int, taskId: Option<Id>)

  /** The fields an update may carry; an omitted field is left as it is. */
  datatype BlockPatch = BlockPatch(order: Option<int>, taskId: Option<Id>)

  predicate IsBlockOf(b: TimeBlock, id: Id, userId: Id) {
    b.id == id && b.userId == userId
  }

  predicate BlockHasId(b: TimeBlock, id: Id) {
    b.id == id
  }

  predicate BlockOwnedBy(b: TimeBlock, userId: Id) {
    b.userId == userId
  }

  // ---------------------------------------------------------------------------
  // Reading a day plan

  predicate SortedByOrder(bs: seq<TimeBlock>) {
    forall i, j :: 0 <= i < j < |bs| ==> bs[i].order <= bs[j].order
  }

  /** `b` placed into `bs` after every block whose order is not larger. */
  function InsertByOrder(b: TimeBlock, bs: seq<TimeBlock>): (r: seq<TimeBlock>)
    ensures |r| == |bs| + 1
  {
    if bs == [] then [b]
    else if b.order < bs[0].order then [b] + bs
    else [bs[0]] + InsertByOrder(b, bs[1..])
  }

  lemma {:induction false} InsertByOrderBound(b: TimeBlock, bs: seq<TimeBlock>, lo: int)
    requires lo <= b.order && forall k :: 0 <= k < |bs| ==> lo <= bs[k].order
    ensures forall k :: 0 <= k < |InsertByOrder(b, bs)| ==> lo <= InsertByOrder(b, bs)[k].order
  {
    if bs != [] && b.order >= bs[0].order {
      InsertByOrderBound(b, bs[1..], lo);
    }
  }

  /** Inserting into a sorted sequence keeps it sorted and adds exactly `b`. */
  lemma {:induction false} InsertByOrderSorted(b: TimeBlock, bs: seq<TimeBlock>)
    requires SortedByOrder(bs)
    ensures SortedByOrder(InsertByOrder(b, bs))
    ensures multiset(InsertByOrder(b, bs)) == multiset(bs) + multiset{b}
  {
    if bs != [] {
      assert bs == [bs[0]] + bs[1..];
      if b.order >= bs[0].order {
        InsertByOrderSorted(b, bs[1..]);
        InsertByOrderBound(b, bs[1..], bs[0].order);
      }
    }
  }

  /** The blocks in non-decreasing order; blocks with equal order keep their table order. */
  function SortByOrder(bs: seq<TimeBlock>): (r: seq<TimeBlock>)
    ensures SortedByOrder(r)
    ensures multiset(r) == multiset(bs)
  {
    if bs == [] then []
    else
      assert bs == [bs[0]] + bs[1..];
      var sorted := SortByOrder(bs[1..]);
      InsertByOrderSorted(bs[0], sorted);
      InsertByOrder(bs[0], sorted)
  }

  /** `getAll`: exactly the user's blocks, by ascending order. */
  function GetAll(db: Database, userId: Id): (r: seq<TimeBlock>)
    reads db
    ensures SortedByOrder(r)
    ensures multiset(r) == multiset(Filter(db.blocks, b => BlockOwnedBy(b, userId)))
    ensures forall b :: b in r <==> b in db.blocks && b.userId == userId
  {
    var mine := Filter(db.blocks, b => BlockOwnedBy(b, userId));
    var r := SortByOrder(mine);
    assert forall b :: b in r <==> b in multiset(mine);
    r
  }

  // ---------------------------------------------------------------------------
  // Writing blocks

  /** The row `create` writes. */
  function NewBlock(id: Id, userId: Id, dto: BlockDto): TimeBlock {
    TimeBlock(id, userId, dto.order, dto.taskId)
  }

  /**
   * `create`: a new block owned by the user, linked to a task only when a task
   * identifier is supplied. The connected user, and the task when there is one,
   * must exist.
   */
  method Create(db: Database, userId: Id, dto: BlockDto) returns (r: Result<TimeBlock, StoreError>)
    requires db.Valid()
    modifies db`blocks, db`nextId
    ensures db.Valid()
    ensures r.Err? <==> !db.HasUser(userId) || (dto.taskId.Some? && !db.HasTask(dto.taskId.value))
    ensures r.Err? ==> r.error == NotFound && db.blocks == old(db.blocks) && db.nextId == old(db.nextId)
    ensures r.Ok? ==>
      && r.value == NewBlock(old(db.nextId), userId, dto)
      && (r.value.taskId.Some? <==> dto.taskId.Some?)
      && db.blocks == old(db.blocks) + [r.value]
      && db.nextId == old(db.nextId) + 1
  {
    if !db.HasUser(userId) {
      return Err(NotFound);
    }
    if dto.taskId.Some? && !db.HasTask(dto.taskId.value) {
      return Err(NotFound);
    }
    var b := NewBlock(db.nextId, userId, dto);
    AppendBlockKeepsInvariant(db.users, db.tasks, db.blocks, db.sessions, db.rounds, db.nextId, b);
    db.blocks := db.blocks + [b];
    db.nextId := db.nextId + 1;
    r := Ok(b);
  }

  /** A block with the supplied fields of `patch` written over it. */
  function PatchedBlock(b: TimeBlock, patch: BlockPatch): (r: TimeBlock)
    ensures r.id == b.id && r.userId == b.userId
  {
    TimeBlock(b.id, b.userId, patch.order.GetOr(b.order), if patch.taskId.Some? then patch.taskId else b.taskId)
  }

  /** The supplied fields are written, the omitted ones kept, and an empty patch changes nothing. */
  lemma PatchedBlockFields(b: TimeBlock, patch: BlockPatch)
    ensures PatchedBlock(b, patch).order == if patch.order.Some? then patch.order.value else b.order
    ensures patch.taskId.Some? ==> PatchedBlock(b, patch).taskId == patch.taskId
    ensures patch.taskId.None? ==> PatchedBlock(b, patch).taskId == b.taskId
    ensures PatchedBlock(b, BlockPatch(None, None)) == b
  {
  }

  /**
   * `update`: only the block matching both the id and the user changes. With no
   * such block the store refuses with `NotFound`; a new task link must name an
   * existing task.
   */
  method Update(db: Database, id: Id, userId: Id, patch: BlockPatch) returns (r: Result<TimeBlock, StoreError>)
    requires db.Valid()
    modifies db`blocks
    ensures db.Valid()
    ensures var i := FindIndex(old(db.blocks), b => IsBlockOf(b, id, userId));
      if i.None? then r == Err(NotFound) && db.blocks == old(db.blocks)
      else if patch.taskId.Some? && !db.HasTask(patch.taskId.value) then
        r == Err(ForeignKeyViolation) && db.blocks == old(db.blocks)
      else
        && r == Ok(PatchedBlock(old(db.blocks)[i.value], patch))
        && db.blocks == old(db.blocks)[i.value := r.value]
  {
    var i := FindIndex(db.blocks, b => IsBlockOf(b, id, userId));
    if i.None? {
      return Err(NotFound);
    }
    if patch.taskId.Some? && !db.HasTask(patch.taskId.value) {
      return Err(ForeignKeyViolation);
    }
    var b := PatchedBlock(db.blocks[i.value], patch);
    ReplaceKeysBelow(db.blocks, i.value, b, BlockKey, db.nextId);
    db.blocks := db.blocks[i.value := b];
    r := Ok(b);
  }

  /** `delete`: removes the block matching both the id and the user, and returns it. */
  method Delete(db: Database, id: Id, userId: Id) returns (r: Result<TimeBlock, StoreError>)
    requires db.Valid()
    modifies db`blocks
    ensures db.Valid()
    ensures var i := FindIndex(old(db.blocks), b => IsBlockOf(b, id, userId));
      if i.None? then r == Err(NotFound) && db.blocks == old(db.blocks)
      else
        && r == Ok(old(db.blocks)[i.value])
        && db.blocks == old(db.blocks)[..i.value] + old(db.blocks)[i.value + 1..]
  {
    var i := FindIndex(db.blocks, b => IsBlockOf(b, id, userId));
    if i.None? {
      return Err(NotFound);
    }
    var k := i.value;
    var rows := db.blocks;
    RemoveKeysBelow(rows, k, BlockKey, db.nextId);
    r := Ok(rows[k]);
    db.blocks := rows[..k] + rows[k + 1..];
    forall j | 0 <= j < |db.blocks| ensures db.HasUser(db.blocks[j].userId) {
      var j' := if j < k then j else j + 1;
      assert db.blocks[j] == rows[j'];
    }
  }

  // ---------------------------------------------------------------------------
  // Reordering

  /** A block after the batch: its position is the last index of its id in `ids`, if it is listed. */
  function Placed(b: TimeBlock, ids: seq<Id>): (r: TimeBlock)
    ensures r.id == b.id && r.userId == b.userId && r.taskId == b.taskId
  {
    if b.id in ids then b.(order := LastIndex(ids, b.id)) else b
  }

  /** The table after `updateOrder(ids)` commits: each listed block takes its position in `ids`. */
  function Reorder(bs: seq<TimeBlock>, ids: seq<Id>): (r: seq<TimeBlock>)
    ensures |r| == |bs|
  {
    seq(|bs|, k requires 0 <= k < |bs| => Placed(bs[k], ids))
  }

  /** Some block of `bs` has this id. */
  predicate Listed(bs: seq<TimeBlock>, id: Id) {
    exists k :: 0 <= k < |bs| && bs[k].id == id
  }

  /** `ids` names only blocks of the table. */
  predicate AllListed(bs: seq<TimeBlock>, ids: seq<Id>) {
    forall i :: 0 <= i < |ids| ==> Listed(bs, ids[i])
  }

  /** One update of the batch: the block with this id gets this position. */
  function WithOrder(bs: seq<TimeBlock>, id: Id, order: int): (r: seq<TimeBlock>)
    ensures |r| == |bs|
  {
    seq(|bs|, k requires 0 <= k < |bs| => if bs[k].id == id then bs[k].(order := order) else bs[k])
  }

  /** Extending the list by one id changes only the placement of that id's block. */
  lemma PlacedStep(b: TimeBlock, ids: seq<Id>, i: nat)
    requires i < |ids|
    ensures Placed(b, ids[..i + 1]) == if b.id == ids[i] then b.(order := i) else Placed(b, ids[..i])
  {
    var pre, ext := ids[..i], ids[..i + 1];
    assert ext == pre + [ids[i]];
    if b.id == ids[i] {
      assert LastIndex(ext, b.id) == i;
    } else if b.id in ext {
      assert b.id in pre;
      var k := LastIndex(ext, b.id);
      assert k < i;
      assert ext[k + 1..] == pre[k + 1..] + [ids[i]];
    }
  }

  /** The block the batch updates at step `i`, as that update returns it. */
  function Written(bs: seq<TimeBlock>, id: Id, order: int): (r: Option<TimeBlock>) {
    match FindIndex(bs, b => BlockHasId(b, id))
    case None => None
    case Some(k) => Some(bs[k].(order := order))
  }

  /** In a table with unique identifiers the update finds the one block with the id. */
  lemma WrittenAt(bs: seq<TimeBlock>, bound: nat, k: nat, order: int)
    requires KeysBelow(bs, BlockKey, bound) && k < |bs|
    ensures Written(bs, bs[k].id, order) == Some(bs[k].(order := order))
  {
    var id := bs[k].id;
    var k' := FindIndex(bs, b => BlockHasId(b, id));
    assert k'.Some? by { assert BlockHasId(bs[k], id); }
    if k'.value != k {
      KeysUnique(bs, BlockKey, bound, k, k'.value);
    }
  }

  /** One more update of the batch moves the table to the placement for one more id. */
  lemma ReorderStep(bs: seq<TimeBlock>, ids: seq<Id>, i: nat)
    requires i < |ids|
    ensures WithOrder(Reorder(bs, ids[..i]), ids[i], i) == Reorder(bs, ids[..i + 1])
  {
    var work := Reorder(bs, ids[..i]);
    forall k | 0 <= k < |work| ensures WithOrder(work, ids[i], i)[k] == Reorder(bs, ids[..i + 1])[k] {
      PlacedStep(bs[k], ids, i);
    }
  }

  /** An id that names no block of the batch's copy names none of the table. */
  lemma Unlisted(work: seq<TimeBlock>, bs: seq<TimeBlock>, ids: seq<Id>, i: nat)
    requires i < |ids| && work == Reorder(bs, ids[..i])
    requires forall k :: 0 <= k < |work| ==> !BlockHasId(work[k], ids[i])
    ensures !AllListed(bs, ids)
  {
    forall k | 0 <= k < |bs| ensures bs[k].id != ids[i] {
      assert !BlockHasId(work[k], ids[i]);
    }
    assert !Listed(bs, ids[i]);
  }

  lemma AllListedStep(bs: seq<TimeBlock>, ids: seq<Id>, i: nat, k: nat)
    requires i < |ids| && k < |bs| && bs[k].id == ids[i] && AllListed(bs, ids[..i])
    ensures AllListed(bs, ids[..i + 1])
  {
    var pre, ext := ids[..i], ids[..i + 1];
    assert ext == pre + [ids[i]];
    assert AllListed(bs, [ids[i]]);
  }

  /** The commit of the batch: a table with the same identifiers and owners replaces the blocks. */
  method Commit(db: Database, work: seq<TimeBlock>)
    requires db.Valid() && |work| == |db.blocks|
    requires forall k :: 0 <= k < |work| ==> work[k].id == db.blocks[k].id && work[k].userId == db.blocks[k].userId
    modifies db`blocks
    ensures db.Valid() && db.blocks == work
  {
    SameKeysBelow(db.blocks, work, BlockKey, db.nextId);
    db.blocks := work;
  }

  /**
   * The batch of `updateOrder` on the transaction's copy of the table: block
   * `ids[i]` gets position `i`, in turn. Gives the table to commit and the
   * written rows, or `NotFound` at the first id that names no block.
   */
  method ApplyOrder(rows: seq<TimeBlock>, ids: seq<Id>, ghost bound: nat) returns (r: Result<(seq<TimeBlock>, seq<TimeBlock>), StoreError>)
    requires KeysBelow(rows, BlockKey, bound)
    ensures r.Err? <==> !AllListed(rows, ids)
    ensures r.Err? ==> r.error == NotFound
    ensures r.Ok? ==>
      && r.value.0 == Reorder(rows, ids)
      && |r.value.1| == |ids|
      && forall i :: 0 <= i < |ids| ==> Some(r.value.1[i]) == Written(rows, ids[i], i)
  {
    var work := rows;
    var done: seq<TimeBlock> := [];
    var i := 0;
    while i < |ids|
      invariant 0 <= i <= |ids|
      invariant work == Reorder(rows, ids[..i]) && |done| == i
      invariant AllListed(rows, ids[..i])
      invariant forall m :: 0 <= m < i ==> Some(done[m]) == Written(rows, ids[m], m)
    {
      var found := FindIndex(work, b => BlockHasId(b, ids[i]));
      if found.None? {
        Unlisted(work, rows, ids, i);
        return Err(NotFound);
      }
      var k := found.value;
      WrittenAt(rows, bound, k, i);
      assert work[k].id == rows[k].id;
      AllListedStep(rows, ids, i, k);
      done := done + [work[k].(order := i)];
      ReorderStep(rows, ids, i);
      work := WithOrder(work, ids[i], i);
      assert ids[..i + 1][..i] == ids[..i];
      i := i + 1;
    }
    assert ids[..i] == ids;
    r := Ok((work, done));
  }

  /**
   * `updateOrder`: one transaction that gives block `ids[i]` the position `i`, in
   * turn, so a repeated id ends with its last position. Blocks not listed keep
   * their position. The owner of a block is not checked. If any id names no
   * block, the transaction rolls back and no position changes.
   */
  method UpdateOrder(db: Database, ids: seq<Id>) returns (r: Result<seq<TimeBlock>, StoreError>)
    requires db.Valid()
    modifies db`blocks
    ensures db.Valid()
    ensures r.Err? <==> !AllListed(old(db.blocks), ids)
    ensures r.Err? ==> r.error == NotFound && db.blocks == old(db.blocks)
    ensures r.Ok? ==>
      && db.blocks == Reorder(old(db.blocks), ids)
      && |r.value| == |ids|
      && forall i :: 0 <= i < |ids| ==> Some(r.value[i]) == Written(old(db.blocks), ids[i], i)
  {
    var staged := ApplyOrder(db.blocks, ids, db.nextId);
    if staged.Err? {
      return Err(staged.error);
    }
    ReorderKeeps(db.blocks, ids);
    Commit(db, staged.value.0);
    r := Ok(staged.value.1);
  }

  /** Running the same reordering twice leaves the table as running it once. */
  lemma ReorderIdempotent(bs: seq<TimeBlock>, ids: seq<Id>)
    ensures Reorder(Reorder(bs, ids), ids) == Reorder(bs, ids)
  {
  }

  /** With distinct ids, block `ids[i]` ends at position `i`; an unlisted block keeps its own. */
  lemma ReorderPositions(bs: seq<TimeBlock>, ids: seq<Id>, i: nat, k: nat)
    requires Distinct(ids) && i < |ids| && k < |bs|
    ensures bs[k].id == ids[i] ==> Reorder(bs, ids)[k] == bs[k].(order := i)
    ensures bs[k].id !in ids ==> Reorder(bs, ids)[k] == bs[k]
  {
    if bs[k].id == ids[i] {
      var j := LastIndex(ids, bs[k].id);
      assert ids[j] == ids[i];
    }
  }

  /** A reordering leaves the owners and identifiers of the table, and their order, as they were. */
  lemma ReorderKeeps(bs: seq<TimeBlock>, ids: seq<Id>)
    ensures forall k :: 0 <= k < |bs| ==>
      Reorder(bs, ids)[k].id == bs[k].id && Reorder(bs, ids)[k].userId == bs[k].userId
  {
  }
}
