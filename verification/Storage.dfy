/** The storage service on the memory driver: pools with byte counters, volumes and snapshots
    under ids drawn from counters. Byte counters are uint64 and id counters int32; both wrap. */
module Storage {
  import opened Common

  const WRAP64: nat := 0x1_0000_0000_0000_0000

  datatype Pool = Pool(totalBytes: U64, usedBytes: U64)
  datatype Volume = Volume(pool: string, name: string, sizeBytes: U64, format: string)
  datatype Snapshot = Snapshot(volumeId: nat, name: string)

  /** The number of different int32 ids. */
  const ID_SPACE: nat := 0x1_0000_0000

  function NextId(id: U32): U32 { (id + 1) % ID_SPACE }

  /** Volume "vol-n" and snapshot "snap-n" are keyed by the int32 n, as its 32 bits. */
  datatype Store = Store(
    pools: map<string, Pool>, volumes: map<nat, Volume>, snapshots: map<nat, Snapshot>,
    nextVolId: U32, nextSnapId: U32)

  datatype Error = PoolNotFound | VolumeNotFound | SnapshotNotFound | SourceNotFound
  datatype Result = Ok(id: nat) | Done | Fail(error: Error)

  const GIB: nat := 1024 * 1024 * 1024

  const Initial := Store(
    map["local-zfs" := Pool(3435973836800, 2302160486400), "ceph-pool" := Pool(10995116277760, 4398046511104)],
    map[], map[], 1, 1)

  datatype Op =
    | CreateVolume(pool: string, name: string, format: string, sizeBytes: U64)
    | DeleteVolume(id: nat)
    | ResizeVolume(id: nat, newSize: U64)
    | CreateSnapshot(volumeId: nat, name: string)
    | CloneSnapshot(id: nat, name: string)
    | DeleteSnapshot(id: nat)
    | ImportVolume(pool: string, name: string)

  // ---------------------------------------------------------------------------
  // What each operation does
  // ---------------------------------------------------------------------------

  function Credit(s: Store, pool: string, bytes: U64): map<string, Pool> {
    if pool in s.pools
    then s.pools[pool := s.pools[pool].(usedBytes := (s.pools[pool].usedBytes + bytes) % WRAP64)]
    else s.pools
  }

  /** The guarded subtraction: skipped when it would go below zero. */
  function Debit(s: Store, pool: string, bytes: U64): map<string, Pool> {
    if pool in s.pools && s.pools[pool].usedBytes >= bytes
    then s.pools[pool := s.pools[pool].(usedBytes := s.pools[pool].usedBytes - bytes)]
    else s.pools
  }

  function AddVolume(s: Store, v: Volume): Store {
    s.(volumes := s.volumes[s.nextVolId := v], nextVolId := NextId(s.nextVolId))
  }

  function Apply(s: Store, op: Op): (Store, Result) {
    match op
    case CreateVolume(pool, name, format, size) =>
      if pool !in s.pools then (s, Fail(PoolNotFound))
      else (AddVolume(s, Volume(pool, name, size, format)).(pools := Credit(s, pool, size)), Ok(s.nextVolId))
    case DeleteVolume(id) =>
      if id !in s.volumes then (s, Fail(VolumeNotFound))
      else
        var v := s.volumes[id];
        (s.(pools := Debit(s, v.pool, v.sizeBytes), volumes := s.volumes - {id}), Done)
    case ResizeVolume(id, size) =>
      if id !in s.volumes then (s, Fail(VolumeNotFound))
      else
        var v := s.volumes[id];
        var pools := if size > v.sizeBytes then Credit(s, v.pool, size - v.sizeBytes)
                     else Debit(s, v.pool, v.sizeBytes - size);
        (s.(pools := pools, volumes := s.volumes[id := v.(sizeBytes := size)]), Done)
    case CreateSnapshot(volumeId, name) =>
      if volumeId !in s.volumes then (s, Fail(VolumeNotFound))
      else (s.(snapshots := s.snapshots[s.nextSnapId := Snapshot(volumeId, name)], nextSnapId := NextId(s.nextSnapId)),
            Ok(s.nextSnapId))
    case CloneSnapshot(id, name) =>
      if id !in s.snapshots then (s, Fail(SnapshotNotFound))
      else if s.snapshots[id].volumeId !in s.volumes then (s, Fail(SourceNotFound))
      else
        var v := s.volumes[s.snapshots[id].volumeId];
        (AddVolume(s, v.(name := name)).(pools := Credit(s, v.pool, v.sizeBytes)), Ok(s.nextVolId))
    case DeleteSnapshot(id) =>
      if id !in s.snapshots then (s, Fail(SnapshotNotFound))
      else (s.(snapshots := s.snapshots - {id}), Done)
    case ImportVolume(pool, name) =>
      if pool !in s.pools then (s, Fail(PoolNotFound))
      else (AddVolume(s, Volume(pool, name, 0, "imported")), Ok(s.nextVolId))
  }

  function Run(ops: seq<Op>): Store {
    if |ops| == 0 then Initial else Apply(Run(ops[..|ops| - 1]), ops[|ops| - 1]).0
  }

  // ---------------------------------------------------------------------------
  // The accounting law
  // ---------------------------------------------------------------------------

  /** Bytes of the live volumes of a pool with number below `n`. */
  function LiveBytes(volumes: map<nat, Volume>, pool: string, n: nat): nat {
    if n == 0 then 0
    else LiveBytes(volumes, pool, n - 1) + BytesOf(volumes, pool, n - 1)
  }

  function BytesOf(volumes: map<nat, Volume>, pool: string, id: nat): nat {
    if id in volumes && volumes[id].pool == pool then volumes[id].sizeBytes else 0
  }

  /** What the pool's counter should read. */
  function Owed(s: Store, pool: string): nat {
    (if pool in Initial.pools then Initial.pools[pool].usedBytes else 0) + LiveBytes(s.volumes, pool, ID_SPACE)
  }

  ghost predicate Accounted(s: Store) {
    && s.pools.Keys == Initial.pools.Keys
    && (forall id :: id in s.volumes ==> id < ID_SPACE && s.volumes[id].pool in s.pools)
    && (forall p :: p in s.pools ==> s.pools[p].usedBytes == Owed(s, p))
  }

  /** Changing the entry of one number changes the sum by that entry. */
  lemma {:induction false} ChangeOne(before: map<nat, Volume>, after: map<nat, Volume>, pool: string, id: nat, n: nat)
    requires forall k :: k != id ==> BytesOf(after, pool, k) == BytesOf(before, pool, k)
    ensures LiveBytes(after, pool, n)
            == LiveBytes(before, pool, n) + (if id < n then BytesOf(after, pool, id) - BytesOf(before, pool, id) else 0)
  {
    if n > 0 { ChangeOne(before, after, pool, id, n - 1); }
  }

  /** Every live volume is covered by the sum, so the guarded subtraction never skips. */
  lemma {:induction false} CoveredBySum(volumes: map<nat, Volume>, pool: string, id: nat, n: nat)
    requires id < n
    ensures BytesOf(volumes, pool, id) <= LiveBytes(volumes, pool, n)
  {
    if id < n - 1 { CoveredBySum(volumes, pool, id, n - 1); }
  }

  /** The bytes of the live volume, if any, that the next id names. */
  function Overwritten(s: Store): nat {
    if s.nextVolId in s.volumes then s.volumes[s.nextVolId].sizeBytes else 0
  }

  /** A volume added under the next id, in place of what that id named. */
  lemma AddedBytes(s: Store, v: Volume, p: string)
    ensures Owed(AddVolume(s, v), p)
            == Owed(s, p) + (if v.pool == p then v.sizeBytes else 0) - BytesOf(s.volumes, p, s.nextVolId)
  {
    ChangeOne(s.volumes, AddVolume(s, v).volumes, p, s.nextVolId, ID_SPACE);
  }

  /** The bytes an operation would add to its pool, beyond what it frees. */
  function Growth(s: Store, op: Op): nat {
    match op
    case CreateVolume(pool, _, _, size) => if pool in s.pools then size else 0
    case ResizeVolume(id, size) =>
      if id in s.volumes && size > s.volumes[id].sizeBytes then size - s.volumes[id].sizeBytes else 0
    case CloneSnapshot(id, _) =>
      if id in s.snapshots && s.snapshots[id].volumeId in s.volumes
      then s.volumes[s.snapshots[id].volumeId].sizeBytes else 0
    case _ => 0
  }

  function GrowthPool(s: Store, op: Op): Option<string> {
    match op
    case CreateVolume(pool, _, _, _) => Some(pool)
    case ResizeVolume(id, _) => if id in s.volumes then Some(s.volumes[id].pool) else None
    case CloneSnapshot(id, _) =>
      if id in s.snapshots && s.snapshots[id].volumeId in s.volumes
      then Some(s.volumes[s.snapshots[id].volumeId].pool) else None
    case _ => None
  }

  /** The pool has a u64's worth of room for what the operation adds. */
  predicate HasRoom(s: Store, op: Op) {
    var p := GrowthPool(s, op);
    p.Some? && p.value in s.pools ==> s.pools[p.value].usedBytes + Growth(s, op) < WRAP64
  }

  predicate Creates(s: Store, op: Op) {
    match op
    case CreateVolume(pool, _, _, _) => pool in s.pools
    case ImportVolume(pool, _) => pool in s.pools
    case CloneSnapshot(id, _) => id in s.snapshots && s.snapshots[id].volumeId in s.volumes
    case _ => false
  }

  lemma FreshAdd(s: Store, v: Volume, pools: map<string, Pool>)
    requires Accounted(s) && v.pool in s.pools && pools.Keys == s.pools.Keys && Overwritten(s) == 0
    requires forall p :: p in pools && p != v.pool ==> pools[p] == s.pools[p]
    ensures Accounted(AddVolume(s, v).(pools := pools)) <==>
              pools[v.pool].usedBytes == s.pools[v.pool].usedBytes + v.sizeBytes
  {
    var s' := AddVolume(s, v).(pools := pools);
    forall p ensures Owed(s', p) == Owed(s, p) + if v.pool == p then v.sizeBytes else 0 { AddedBytes(s, v, p); }
    OneCounterDecides(s, s', v.pool);
  }

  lemma OverwritingAdd(s: Store, v: Volume, pools: map<string, Pool>)
    requires Accounted(s) && v.pool in s.pools && pools.Keys == s.pools.Keys && Overwritten(s) > 0
    requires forall p :: p in pools && p != v.pool ==> pools[p] == s.pools[p]
    requires pools[v.pool].usedBytes == (s.pools[v.pool].usedBytes + v.sizeBytes) % WRAP64
    ensures !Accounted(AddVolume(s, v).(pools := pools))
  {
    var s', q := AddVolume(s, v).(pools := pools), s.volumes[s.nextVolId].pool;
    AddedBytes(s, v, q);
    assert q in s'.pools && Owed(s', q) != s'.pools[q].usedBytes;
  }

  /** Adding a volume and its bytes to its pool: exact unless the counter wraps or a live volume
      with bytes is overwritten. */
  lemma AddAccountsIff(s: Store, v: Volume, pools: map<string, Pool>)
    requires Accounted(s) && v.pool in s.pools && pools.Keys == s.pools.Keys
    requires forall p :: p in pools && p != v.pool ==> pools[p] == s.pools[p]
    requires pools[v.pool].usedBytes == (s.pools[v.pool].usedBytes + v.sizeBytes) % WRAP64
    ensures Accounted(AddVolume(s, v).(pools := pools)) <==>
              s.pools[v.pool].usedBytes + v.sizeBytes < WRAP64 && Overwritten(s) == 0
  {
    if Overwritten(s) == 0 { FreshAdd(s, v, pools); } else { OverwritingAdd(s, v, pools); }
  }

  lemma DeleteAccounts(s: Store, id: nat)
    requires Accounted(s) && id in s.volumes
    ensures Accounted(Apply(s, DeleteVolume(id)).0)
    ensures var v := s.volumes[id];
            Apply(s, DeleteVolume(id)).0.pools[v.pool].usedBytes == s.pools[v.pool].usedBytes - v.sizeBytes
  {
    var v, s' := s.volumes[id], Apply(s, DeleteVolume(id)).0;
    CoveredBySum(s.volumes, v.pool, id, ID_SPACE);
    forall p ensures Owed(s', p) == Owed(s, p) - if v.pool == p then v.sizeBytes else 0 {
      ChangeOne(s.volumes, s'.volumes, p, id, ID_SPACE);
    }
  }

  lemma ResizeOwed(s: Store, id: nat, size: U64, p: string)
    requires Accounted(s) && id in s.volumes
    ensures Owed(Apply(s, ResizeVolume(id, size)).0, p)
            == Owed(s, p) + if s.volumes[id].pool == p then size - s.volumes[id].sizeBytes else 0
  {
    ChangeOne(s.volumes, Apply(s, ResizeVolume(id, size)).0.volumes, p, id, ID_SPACE);
  }

  /** When only one pool changes, its counter decides. */
  lemma OneCounterDecides(s: Store, s': Store, pool: string)
    requires Accounted(s) && pool in s.pools && s'.pools.Keys == s.pools.Keys
    requires forall id :: id in s'.volumes ==> id < ID_SPACE && s'.volumes[id].pool in s'.pools
    requires forall p :: p != pool ==> Owed(s', p) == Owed(s, p)
    requires forall p :: p in s.pools && p != pool ==> s'.pools[p] == s.pools[p]
    ensures Accounted(s') <==> s'.pools[pool].usedBytes == Owed(s', pool)
  {
  }

  /** The resized pool's counter: a wrapping addition, or a subtraction never skipped. */
  lemma ResizeCounter(s: Store, id: nat, size: U64)
    requires Accounted(s) && id in s.volumes
    ensures var v, s' := s.volumes[id], Apply(s, ResizeVolume(id, size)).0;
            var sum := s.pools[v.pool].usedBytes + size - v.sizeBytes;
            && sum >= 0
            && s'.pools.Keys == s.pools.Keys
            && (s'.pools[v.pool].usedBytes == sum <==> sum < WRAP64)
  {
    CoveredBySum(s.volumes, s.volumes[id].pool, id, ID_SPACE);
  }

  lemma ResizeAccounts(s: Store, id: nat, size: U64)
    requires Accounted(s) && id in s.volumes
    ensures Accounted(Apply(s, ResizeVolume(id, size)).0) <==> HasRoom(s, ResizeVolume(id, size))
  {
    var v, s' := s.volumes[id], Apply(s, ResizeVolume(id, size)).0;
    ResizeCounter(s, id, size);
    ResizeOwed(s, id, size, v.pool);
    forall p | p != v.pool ensures Owed(s', p) == Owed(s, p) { ResizeOwed(s, id, size, p); }
    OneCounterDecides(s, s', v.pool);
  }

  lemma SnapshotsAccount(s: Store, op: Op)
    requires Accounted(s) && (op.CreateSnapshot? || op.DeleteSnapshot?)
    ensures Accounted(Apply(s, op).0)
  {
    assert forall p :: Owed(Apply(s, op).0, p) == Owed(s, p);
  }

  lemma CreateAccountsIff(s: Store, op: Op)
    requires Accounted(s) && op.CreateVolume? && op.pool in s.pools
    ensures Accounted(Apply(s, op).0) <==> HasRoom(s, op) && Overwritten(s) == 0
  {
    AddAccountsIff(s, Volume(op.pool, op.name, op.sizeBytes, op.format), Credit(s, op.pool, op.sizeBytes));
  }

  lemma CloneAccountsIff(s: Store, op: Op)
    requires Accounted(s) && op.CloneSnapshot? && Creates(s, op)
    ensures Accounted(Apply(s, op).0) <==> HasRoom(s, op) && Overwritten(s) == 0
  {
    var v := s.volumes[s.snapshots[op.id].volumeId].(name := op.name);
    AddAccountsIff(s, v, Credit(s, v.pool, v.sizeBytes));
  }

  lemma ImportAccountsIff(s: Store, op: Op)
    requires Accounted(s) && op.ImportVolume? && op.pool in s.pools
    ensures Accounted(Apply(s, op).0) <==> Overwritten(s) == 0
  {
    AddAccountsIff(s, Volume(op.pool, op.name, 0, "imported"), s.pools);
  }

  ghost predicate Harmless(s: Store, op: Op) {
    HasRoom(s, op) && (Creates(s, op) ==> Overwritten(s) == 0)
  }

  /** From an accounted store, an operation keeps every counter exact if and only if the pool it
      grows has room for the growth and a new id does not overwrite a live volume with bytes. */
  lemma ApplyAccountsIff(s: Store, op: Op)
    requires Accounted(s)
    ensures Accounted(Apply(s, op).0) <==> Harmless(s, op)
  {
    match op
    case CreateVolume(pool, _, _, _) => if pool in s.pools { CreateAccountsIff(s, op); }
    case DeleteVolume(id) => if id in s.volumes { DeleteAccounts(s, id); }
    case ResizeVolume(id, size) => if id in s.volumes { ResizeAccounts(s, id, size); }
    case CloneSnapshot(_, _) => if Creates(s, op) { CloneAccountsIff(s, op); }
    case ImportVolume(pool, _) => if pool in s.pools { ImportAccountsIff(s, op); }
    case _ => SnapshotsAccount(s, op);
  }

  /** How many volumes a run creates. */
  function Created(ops: seq<Op>): nat {
    if |ops| == 0 then 0
    else
      var front := ops[..|ops| - 1];
      Created(front) + if Creates(Run(front), ops[|ops| - 1]) then 1 else 0
  }

  /** The id that comes after n have been drawn, from 1 on and at last 0, below 2^32 of them. */
  function IdAfter(n: nat): nat {
    if n + 1 < ID_SPACE then n + 1 else 0
  }

  /** One operation draws the next id or none. */
  lemma IdsDrawn(s: Store, op: Op)
    ensures var s' := Apply(s, op).0;
            && s'.nextVolId == (if Creates(s, op) then NextId(s.nextVolId) else s.nextVolId)
            && forall id :: id in s'.volumes ==> id in s.volumes || (Creates(s, op) && id == s.nextVolId)
  {
  }

  /** The ids of a run's volumes are among the first it drew, so the next one is new as long as
      fewer than 2^32 have been drawn. */
  lemma {:induction false} IdsAreFresh(ops: seq<Op>)
    requires Created(ops) < ID_SPACE
    ensures Run(ops).nextVolId == IdAfter(Created(ops))
    ensures forall id :: id in Run(ops).volumes ==> 1 <= id <= Created(ops)
    ensures Run(ops).nextVolId !in Run(ops).volumes
  {
    if |ops| > 0 {
      IdsAreFresh(ops[..|ops| - 1]);
      IdsDrawn(Run(ops[..|ops| - 1]), ops[|ops| - 1]);
    }
  }

  ghost predicate AlwaysRoom(ops: seq<Op>) {
    forall k :: 0 <= k < |ops| ==> HasRoom(Run(ops[..k]), ops[k])
  }

  lemma {:induction false} NothingLive(p: string, n: nat)
    ensures LiveBytes(map[], p, n) == 0
  {
    if n > 0 { NothingLive(p, n - 1); }
  }

  lemma AccountedAtFirst()
    ensures Accounted(Initial)
  {
    forall p ensures LiveBytes(map[], p, ID_SPACE) == 0 { NothingLive(p, ID_SPACE); }
  }

  lemma AccountsAt(ops: seq<Op>, k: nat)
    requires k < |ops| && Accounted(Run(ops[..k]))
    ensures Accounted(Run(ops[..k + 1])) <==> Harmless(Run(ops[..k]), ops[k])
  {
    assert ops[..k + 1][..k] == ops[..k] && ops[..k + 1][k] == ops[k];
    ApplyAccountsIff(Run(ops[..k]), ops[k]);
  }

  lemma {:induction false} AccountedUpTo(ops: seq<Op>, k: nat)
    requires k <= |ops| && forall j :: 0 <= j < |ops| ==> Harmless(Run(ops[..j]), ops[j])
    ensures Accounted(Run(ops[..k]))
  {
    if k == 0 {
      AccountedAtFirst();
    } else {
      AccountedUpTo(ops, k - 1);
      AccountsAt(ops, k - 1);
    }
  }

  /** The counters are exact at every point of a run if and only if each of its operations was
      harmless where it came. */
  lemma AlwaysAccountedIff(ops: seq<Op>)
    ensures (forall k :: 0 <= k <= |ops| ==> Accounted(Run(ops[..k]))) <==>
              forall k :: 0 <= k < |ops| ==> Harmless(Run(ops[..k]), ops[k])
  {
    if forall k :: 0 <= k < |ops| ==> Harmless(Run(ops[..k]), ops[k]) {
      forall k | 0 <= k <= |ops| ensures Accounted(Run(ops[..k])) { AccountedUpTo(ops, k); }
    }
    if forall k :: 0 <= k <= |ops| ==> Accounted(Run(ops[..k])) {
      forall k | 0 <= k < |ops| ensures Harmless(Run(ops[..k]), ops[k]) { AccountsAt(ops, k); }
    }
  }

  /** Over every run that never outgrows a u64 and creates fewer than 2^32 volumes, each pool's
      counter is its starting value plus the sizes of its live volumes, and a new id never
      overwrites a live volume. */
  lemma {:induction false} EveryRunAccounts(ops: seq<Op>)
    requires AlwaysRoom(ops) && Created(ops) < ID_SPACE
    ensures Accounted(Run(ops)) && Run(ops).nextVolId !in Run(ops).volumes
  {
    IdsAreFresh(ops);
    if |ops| == 0 {
      AccountedAtFirst();
    } else {
      var front := ops[..|ops| - 1];
      assert forall k :: 0 <= k < |front| ==> front[..k] == ops[..k];
      EveryRunAccounts(front);
      ApplyAccountsIff(Run(front), ops[|ops| - 1]);
    }
  }

  /** A pool grown past 2^64 - 1 bytes reads less than it did before. */
  lemma OverflowMiscounts()
    ensures var s := Apply(Initial, CreateVolume("local-zfs", "disk", "raw", 0xFFFF_FFFF_FFFF_FFFF)).0;
            && s.pools["local-zfs"].usedBytes == Initial.pools["local-zfs"].usedBytes - 1
            && !Accounted(s)
  {
    var op := CreateVolume("local-zfs", "disk", "raw", 0xFFFF_FFFF_FFFF_FFFF);
    AccountedAtFirst();
    ApplyAccountsIff(Initial, op);
  }

  function Imports(pool: string, n: nat): seq<Op> {
    seq(n, _ => ImportVolume(pool, "disk"))
  }

  lemma ImportOnce(s: Store, pool: string)
    requires pool in s.pools
    ensures var op := ImportVolume(pool, "disk");
            var s' := Apply(s, op).0;
            && Creates(s, op) && s'.pools == s.pools
            && s'.nextVolId == NextId(s.nextVolId) && s'.volumes.Keys == s.volumes.Keys + {s.nextVolId}
            && forall id :: id in s.volumes && id != s.nextVolId ==> s'.volumes[id] == s.volumes[id]
  {
  }

  lemma NextIdOf(n: nat)
    ensures NextId(n % ID_SPACE) == (n + 1) % ID_SPACE
  {
  }

  lemma {:induction false} ImportsRun(pool: string, n: nat)
    requires pool in Initial.pools
    ensures Created(Imports(pool, n)) == n && Run(Imports(pool, n)).pools == Initial.pools
    ensures Run(Imports(pool, n)).nextVolId == (n + 1) % ID_SPACE
    ensures n >= 1 ==> 1 in Run(Imports(pool, n)).volumes
  {
    if n > 0 {
      var ops := Imports(pool, n);
      assert ops[..n - 1] == Imports(pool, n - 1) && ops[n - 1] == ImportVolume(pool, "disk");
      ImportsRun(pool, n - 1);
      ImportOnce(Run(ops[..n - 1]), pool);
      NextIdOf(n);
    }
  }

  /** The bound on creations is the exact one: after 2^32 of them the next id is the first again
      and names a volume that is still there. */
  lemma IdsWrapAround()
    ensures var ops := Imports("local-zfs", ID_SPACE);
            Created(ops) == ID_SPACE && Run(ops).nextVolId in Run(ops).volumes
  {
    ImportsRun("local-zfs", ID_SPACE);
  }

  /** A volume of one byte, and then n imports. */
  function ByteThenImports(pool: string, n: nat): seq<Op> {
    [CreateVolume(pool, "disk", "raw", 1)] + Imports(pool, n)
  }

  /** Only the first volume of such a run has bytes, and it keeps the first id. */
  ghost predicate OneByte(s: Store, pool: string, n: nat) {
    && Accounted(s) && pool in s.pools && s.nextVolId == (n + 2) % ID_SPACE
    && 1 in s.volumes && s.volumes[1].sizeBytes == 1
    && (forall id :: id in s.volumes ==> id <= n + 1 && (n + 1 < ID_SPACE ==> 1 <= id))
  }

  lemma FirstByte(pool: string)
    requires pool in Initial.pools
    ensures Run(ByteThenImports(pool, 0)) == Apply(Initial, CreateVolume(pool, "disk", "raw", 1)).0
    ensures OneByte(Run(ByteThenImports(pool, 0)), pool, 0)
  {
    var op := CreateVolume(pool, "disk", "raw", 1);
    assert ByteThenImports(pool, 0) == [op] && [op][..0] == [];
    AccountedAtFirst();
    ApplyAccountsIff(Initial, op);
  }

  lemma OneMoreImport(s: Store, pool: string, n: nat)
    requires OneByte(s, pool, n) && n + 1 < ID_SPACE
    ensures OneByte(Apply(s, ImportVolume(pool, "disk")).0, pool, n + 1)
  {
    NextIdIsUnused(s, n);
    ImportAccountsIff(s, ImportVolume(pool, "disk"));
    ImportOnce(s, pool);
    NextIdOf(n + 2);
  }

  lemma NextIdIsUnused(s: Store, n: nat)
    requires s.nextVolId == (n + 2) % ID_SPACE && n + 1 < ID_SPACE
    requires forall id :: id in s.volumes ==> 1 <= id <= n + 1
    ensures s.nextVolId !in s.volumes
  {
  }

  lemma LastImport(pool: string, n: nat)
    requires n > 0
    ensures Run(ByteThenImports(pool, n)) == Apply(Run(ByteThenImports(pool, n - 1)), ImportVolume(pool, "disk")).0
  {
    var ops := ByteThenImports(pool, n);
    assert ops[..n] == ByteThenImports(pool, n - 1);
  }

  lemma {:induction false} ByteThenImportsRun(pool: string, n: nat)
    requires pool in Initial.pools && n < ID_SPACE
    ensures OneByte(Run(ByteThenImports(pool, n)), pool, n)
  {
    if n == 0 {
      FirstByte(pool);
    } else {
      ByteThenImportsRun(pool, n - 1);
      OneMoreImport(Run(ByteThenImports(pool, n - 1)), pool, n - 1);
      LastImport(pool, n);
    }
  }

  /** When the ids come round to a volume with bytes, the next creation overwrites it and the
      counters are wrong: the byte is owed to no volume any more. */
  lemma OverwritingMiscounts()
    ensures var ops := ByteThenImports("local-zfs", ID_SPACE - 1);
            && Accounted(Run(ops))
            && !Accounted(Apply(Run(ops), ImportVolume("local-zfs", "disk")).0)
  {
    var s := Run(ByteThenImports("local-zfs", ID_SPACE - 1));
    ByteThenImportsRun("local-zfs", ID_SPACE - 1);
    assert s.nextVolId == 1;
    ApplyAccountsIff(s, ImportVolume("local-zfs", "disk"));
  }

  // ---------------------------------------------------------------------------
  // What the callers are told
  // ---------------------------------------------------------------------------

  /** The error that goes with what the operation names and the store lacks. */
  function Missing(s: Store, op: Op): Option<Error> {
    match op
    case CreateVolume(pool, _, _, _) => if pool in s.pools then None else Some(PoolNotFound)
    case ImportVolume(pool, _) => if pool in s.pools then None else Some(PoolNotFound)
    case DeleteVolume(id) => if id in s.volumes then None else Some(VolumeNotFound)
    case ResizeVolume(id, _) => if id in s.volumes then None else Some(VolumeNotFound)
    case CreateSnapshot(id, _) => if id in s.volumes then None else Some(VolumeNotFound)
    case DeleteSnapshot(id) => if id in s.snapshots then None else Some(SnapshotNotFound)
    case CloneSnapshot(id, _) =>
      if id !in s.snapshots then Some(SnapshotNotFound)
      else if s.snapshots[id].volumeId !in s.volumes then Some(SourceNotFound)
      else None
  }

  /** An operation fails exactly when something it names is missing, says which, and then changes
      nothing. */
  lemma FailsIffMissing(s: Store, op: Op)
    ensures var (s', r) := Apply(s, op);
            && (r.Fail? <==> Missing(s, op).Some?)
            && (r.Fail? ==> r.error == Missing(s, op).value && s' == s)
            && (r.Done? ==> op.DeleteVolume? || op.ResizeVolume? || op.DeleteSnapshot?)
  {
  }

  /** The volume a creating operation asks for. */
  function Requested(s: Store, op: Op): Volume
    requires Creates(s, op)
  {
    match op
    case CreateVolume(pool, name, format, size) => Volume(pool, name, size, format)
    case ImportVolume(pool, name) => Volume(pool, name, 0, "imported")
    case CloneSnapshot(id, name) =>
      var source := s.volumes[s.snapshots[id].volumeId];
      Volume(source.pool, name, source.sizeBytes, source.format)
  }

  /** The id a creation replies is the id of the volume that was asked for: all other volumes, and
      the snapshots, are as before. */
  lemma ReplyNamesTheVolume(s: Store, op: Op)
    requires Creates(s, op)
    ensures var (s', r) := Apply(s, op);
            r.Ok? && s'.volumes == s.volumes[r.id := Requested(s, op)] && s'.snapshots == s.snapshots
  {
  }

  /** In a run that creates fewer than 2^32 volumes, that id was not in use, and no two creations
      are told the same one: the n-th is told n. */
  lemma ReplyIsFresh(ops: seq<Op>, op: Op)
    requires Created(ops) < ID_SPACE - 1 && Creates(Run(ops), op)
    ensures Apply(Run(ops), op).1 == Ok(Created(ops) + 1)
    ensures Created(ops) + 1 !in Run(ops).volumes
  {
    NextIdIsTheCount(ops);
    ReplyIsNext(Run(ops), op);
  }

  lemma NextIdIsTheCount(ops: seq<Op>)
    requires Created(ops) < ID_SPACE - 1
    ensures Run(ops).nextVolId == Created(ops) + 1 && Created(ops) + 1 !in Run(ops).volumes
  {
    IdsAreFresh(ops);
  }

  lemma ReplyIsNext(s: Store, op: Op)
    requires Creates(s, op)
    ensures Apply(s, op).1 == Ok(s.nextVolId)
  {
  }

  /** How many snapshots a run takes. */
  function Snapped(ops: seq<Op>): nat {
    if |ops| == 0 then 0
    else
      var front, last := ops[..|ops| - 1], ops[|ops| - 1];
      Snapped(front) + if last.CreateSnapshot? && last.volumeId in Run(front).volumes then 1 else 0
  }

  /** One operation draws the next snapshot id or none. */
  lemma SnapDrawn(s: Store, op: Op)
    ensures var s', snaps := Apply(s, op).0, op.CreateSnapshot? && op.volumeId in s.volumes;
            && s'.nextSnapId == (if snaps then NextId(s.nextSnapId) else s.nextSnapId)
            && forall id :: id in s'.snapshots ==> id in s.snapshots || (snaps && id == s.nextSnapId)
  {
  }

  lemma SnapStep(s: Store, s': Store, n: nat, snaps: bool)
    requires s.nextSnapId == IdAfter(n) && (forall id :: id in s.snapshots ==> 1 <= id <= n)
    requires s'.nextSnapId == if snaps then NextId(s.nextSnapId) else s.nextSnapId
    requires forall id :: id in s'.snapshots ==> id in s.snapshots || (snaps && id == s.nextSnapId)
    requires snaps ==> n + 1 < ID_SPACE
    ensures var n' := if snaps then n + 1 else n;
            && s'.nextSnapId == IdAfter(n')
            && forall id :: id in s'.snapshots ==> 1 <= id <= n'
  {
    NextIdOf(1 + n);
  }

  lemma {:induction false} SnapIdsAreFresh(ops: seq<Op>)
    requires Snapped(ops) < ID_SPACE
    ensures Run(ops).nextSnapId == IdAfter(Snapped(ops))
    ensures forall id :: id in Run(ops).snapshots ==> 1 <= id <= Snapped(ops)
  {
    if |ops| > 0 {
      var front, last := ops[..|ops| - 1], ops[|ops| - 1];
      var s, n := Run(front), Snapped(front);
      SnapIdsAreFresh(front);
      SnapDrawn(s, last);
      SnapStep(s, Apply(s, last).0, n, last.CreateSnapshot? && last.volumeId in s.volumes);
    }
  }

  /** The n-th snapshot of a run is told n, which names no other snapshot. */
  lemma SnapReplyIsFresh(ops: seq<Op>, volumeId: nat, name: string)
    requires Snapped(ops) < ID_SPACE - 1 && volumeId in Run(ops).volumes
    ensures Apply(Run(ops), CreateSnapshot(volumeId, name)).1 == Ok(Snapped(ops) + 1)
    ensures Snapped(ops) + 1 !in Run(ops).snapshots
  {
    NextSnapIsTheCount(ops);
    SnapReplyIsNext(Run(ops), volumeId, name);
  }

  lemma NextSnapIsTheCount(ops: seq<Op>)
    requires Snapped(ops) < ID_SPACE - 1
    ensures Run(ops).nextSnapId == Snapped(ops) + 1 && Snapped(ops) + 1 !in Run(ops).snapshots
  {
    SnapIdsAreFresh(ops);
  }

  lemma SnapReplyIsNext(s: Store, volumeId: nat, name: string)
    requires volumeId in s.volumes
    ensures Apply(s, CreateSnapshot(volumeId, name)).1 == Ok(s.nextSnapId)
  {
  }

  /** From any store, right or wrong counters: deleting takes a volume's size off its pool, unless
      the counter is smaller than that, and touches no other pool. */
  lemma DeleteDebits(s: Store, id: nat)
    requires id in s.volumes && s.volumes[id].pool in s.pools
    ensures var v, s' := s.volumes[id], Apply(s, DeleteVolume(id)).0;
            && (s.pools[v.pool].usedBytes >= v.sizeBytes ==>
                  s'.pools[v.pool].usedBytes + v.sizeBytes == s.pools[v.pool].usedBytes)
            && (s.pools[v.pool].usedBytes < v.sizeBytes ==> s'.pools == s.pools)
            && forall p :: p in s.pools && p != v.pool ==> s'.pools[p] == s.pools[p]
  {
  }

  /** What the operations on existing things change, and that they change nothing else. */
  lemma OthersStay(s: Store, op: Op)
    requires Missing(s, op).None?
    ensures var (s', r) := Apply(s, op);
            && (op.DeleteVolume? ==> r.Done? && s'.volumes == s.volumes - {op.id} && s'.snapshots == s.snapshots)
            && (op.ResizeVolume? ==>
                  && r.Done? && s'.snapshots == s.snapshots
                  && s'.volumes == s.volumes[op.id := s.volumes[op.id].(sizeBytes := op.newSize)])
            && (op.CreateSnapshot? ==>
                  && r.Ok? && s'.snapshots == s.snapshots[r.id := Snapshot(op.volumeId, op.name)]
                  && s'.volumes == s.volumes && s'.pools == s.pools)
            && (op.DeleteSnapshot? ==>
                  && r.Done? && s'.snapshots == s.snapshots - {op.id}
                  && s'.volumes == s.volumes && s'.pools == s.pools)
            && (op.ImportVolume? ==> s'.pools == s.pools)
            && s'.pools.Keys == s.pools.Keys
            && forall p :: p in s.pools ==> s'.pools[p].totalBytes == s.pools[p].totalBytes
  {
  }

  /** Deleting what was just created, by the id that was replied, succeeds and restores volumes
      and counters. */
  lemma CreateThenDelete(s: Store, op: Op)
    requires Accounted(s) && op.CreateVolume? && op.pool in s.pools && HasRoom(s, op)
    requires s.nextVolId !in s.volumes
    ensures var (s1, r) := Apply(s, op);
            r.Ok?
            && var (s', r') := Apply(s1, DeleteVolume(r.id));
            r' == Done && s'.pools == s.pools && s'.volumes == s.volumes
  {
    var (s1, r) := Apply(s, op);
    var s' := Apply(s1, DeleteVolume(r.id)).0;
    assert s1.pools[op.pool].usedBytes == s.pools[op.pool].usedBytes + op.sizeBytes;
    assert s'.pools[op.pool] == s.pools[op.pool];
    assert s'.volumes == s.volumes;
  }

  /** A clone of the replied snapshot is a volume of its own with the source's pool, size and
      format under the new name; once the snapshot is deleted it cannot be cloned any more. */
  lemma SnapshotThenClone(s: Store, source: nat, tag: string, name: string)
    requires source in s.volumes
    ensures var (s1, r) := Apply(s, CreateSnapshot(source, tag));
            r.Ok?
            && var (s2, r2) := Apply(s1, CloneSnapshot(r.id, name));
            && r2.Ok? && r2.id in s2.volumes
            && var (v, v2) := (s.volumes[source], s2.volumes[r2.id]);
            v2.pool == v.pool && v2.name == name && v2.sizeBytes == v.sizeBytes && v2.format == v.format
    ensures var (s1, r) := Apply(s, CreateSnapshot(source, tag));
            r.Ok?
            && var (s3, r3) := Apply(s1, DeleteSnapshot(r.id));
            r3 == Done && Apply(s3, CloneSnapshot(r.id, name)) == (s3, Fail(SnapshotNotFound))
  {
  }

  /** A snapshot whose volume is deleted can be kept but not cloned. */
  lemma CloneNeedsSource(s: Store, snap: nat, name: string)
    requires snap in s.snapshots && s.snapshots[snap].volumeId in s.volumes
    ensures var s' := Apply(s, DeleteVolume(s.snapshots[snap].volumeId)).0;
            Apply(s', CloneSnapshot(snap, name)) == (s', Fail(SourceNotFound))
  {
  }

  // ---------------------------------------------------------------------------
  // The service object
  // ---------------------------------------------------------------------------

  class Service {
    var pools: map<string, Pool>
    var volumes: map<nat, Volume>
    var snapshots: map<nat, Snapshot>
    var nextVolId: U32
    var nextSnapId: U32

    ghost function View(): Store
      reads this
    {
      Store(pools, volumes, snapshots, nextVolId, nextSnapId)
    }

    constructor ()
      ensures View() == Initial
      ensures pools == map["local-zfs" := Pool(3200 * GIB, 2302160486400), "ceph-pool" := Pool(10240 * GIB, 4096 * GIB)]
      ensures volumes == map[] && snapshots == map[] && nextVolId == 1 && nextSnapId == 1
    {
      pools, volumes, snapshots := Initial.pools, map[], map[];
      nextVolId, nextSnapId := 1, 1;
    }

    method NewVolume(v: Volume) returns (id: nat)
      modifies this`volumes, this`nextVolId
      ensures id == old(nextVolId) && View() == AddVolume(old(View()), v)
    {
      id := nextVolId;
      nextVolId := NextId(nextVolId);
      volumes := volumes[id := v];
    }

    method CreateVolume(pool: string, name: string, format: string, size: U64) returns (r: Result)
      modifies this
      ensures (View(), r) == Apply(old(View()), Op.CreateVolume(pool, name, format, size))
    {
      if pool !in pools {
        return Fail(PoolNotFound);
      }
      var id := NewVolume(Volume(pool, name, size, format));
      pools := pools[pool := pools[pool].(usedBytes := (pools[pool].usedBytes + size) % WRAP64)];
      r := Ok(id);
    }

    method DeleteVolume(id: nat) returns (r: Result)
      modifies this
      ensures (View(), r) == Apply(old(View()), Op.DeleteVolume(id))
    {
      if id !in volumes {
        return Fail(VolumeNotFound);
      }
      var v := volumes[id];
      if v.pool in pools {
        var p := pools[v.pool];
        if p.usedBytes >= v.sizeBytes {
          pools := pools[v.pool := p.(usedBytes := p.usedBytes - v.sizeBytes)];
        }
      }
      volumes := volumes - {id};
      r := Done;
    }

    method ResizeVolume(id: nat, size: U64) returns (r: Result)
      modifies this
      ensures (View(), r) == Apply(old(View()), Op.ResizeVolume(id, size))
    {
      if id !in volumes {
        return Fail(VolumeNotFound);
      }
      var v := volumes[id];
      if v.pool in pools {
        var p := pools[v.pool];
        if size > v.sizeBytes {
          pools := pools[v.pool := p.(usedBytes := (p.usedBytes + (size - v.sizeBytes)) % WRAP64)];
        } else if p.usedBytes >= v.sizeBytes - size {
          pools := pools[v.pool := p.(usedBytes := p.usedBytes - (v.sizeBytes - size))];
        }
      }
      volumes := volumes[id := v.(sizeBytes := size)];
      r := Done;
    }

    method CreateSnapshot(volumeId: nat, name: string) returns (r: Result)
      modifies this
      ensures (View(), r) == Apply(old(View()), Op.CreateSnapshot(volumeId, name))
    {
      if volumeId !in volumes {
        return Fail(VolumeNotFound);
      }
      r := Ok(nextSnapId);
      snapshots := snapshots[nextSnapId := Snapshot(volumeId, name)];
      nextSnapId := NextId(nextSnapId);
    }

    method CloneSnapshot(id: nat, name: string) returns (r: Result)
      modifies this
      ensures (View(), r) == Apply(old(View()), Op.CloneSnapshot(id, name))
    {
      if id !in snapshots {
        return Fail(SnapshotNotFound);
      }
      var source := snapshots[id].volumeId;
      if source !in volumes {
        return Fail(SourceNotFound);
      }
      var v := volumes[source];
      var volId := NewVolume(v.(name := name));
      if v.pool in pools {
        var p := pools[v.pool];
        pools := pools[v.pool := p.(usedBytes := (p.usedBytes + v.sizeBytes) % WRAP64)];
      }
      r := Ok(volId);
    }

    method DeleteSnapshot(id: nat) returns (r: Result)
      modifies this
      ensures (View(), r) == Apply(old(View()), Op.DeleteSnapshot(id))
    {
      if id !in snapshots {
        return Fail(SnapshotNotFound);
      }
      snapshots := snapshots - {id};
      r := Done;
    }

    method ImportVolume(pool: string, name: string) returns (r: Result)
      modifies this
      ensures (View(), r) == Apply(old(View()), Op.ImportVolume(pool, name))
    {
      if pool !in pools {
        return Fail(PoolNotFound);
      }
      var id := NewVolume(Volume(pool, name, 0, "imported"));
      r := Ok(id);
    }
  }
}
