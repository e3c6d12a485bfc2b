/** The handle-to-bo map of gralloc/gralloc_gbm.cpp and the buffers behind it. */
module GbmRegistry {
  import opened Options
  import opened GbmFormats
  import opened GbmLocks

  /** A buffer_handle_t; 0 is NULL. */
  type Handle = nat

  type BoId = nat

  /** gbm_bo_handle_map with its null entries, the lock records of the bos not yet destroyed (None until
      the first lock allocates one), and two history variables: every bo ever made, and the bos
      destroyed, in order. */
  datatype Registry = Registry(
    entries: map<Handle, Option<BoId>>,
    bos: map<BoId, Option<LockRecord>>,
    made: set<BoId>,
    destroyed: seq<BoId>)

  const EMPTY := Registry(map[], map[], {}, [])

  /** gralloc_gbm_bo_from_handle: the index operator of the map leaves a null entry behind for a handle
      it does not know. */
  function Lookup(g: Registry, h: Handle): (Option<BoId>, Registry) {
    if h in g.entries then (g.entries[h], g) else (None, g.(entries := g.entries[h := None]))
  }

  /** gbm_free, and so gralloc_gbm_handle_unregister. */
  function Free(g: Registry, h: Handle): Registry {
    var (bo, g1) := Lookup(g, h);
    match bo
    case None => g1
    case Some(id) =>
      g1.(entries := g1.entries - {h}, bos := g1.bos - {id}, destroyed := g1.destroyed + [id])
  }

  /** A bo the library has just made. */
  function MakeBo(g: Registry, id: BoId): Registry {
    g.(bos := g.bos[id := None], made := g.made + {id})
  }

  /** emplace: a key that is already present keeps its value. */
  function Emplace(g: Registry, h: Handle, id: BoId): Registry {
    if h in g.entries then g else g.(entries := g.entries[h := Some(id)])
  }

  /** gralloc_gbm_handle_register; `imported` is the bo that gbm_import made, if it made one. */
  function Register(g: Registry, h: Handle, imported: Option<BoId>): (Status, Registry) {
    if h == 0 then (InvalidArgument, g)
    else if h in g.entries then (InvalidArgument, g)
    else
      match imported
      case None => (InvalidArgument, g)
      case Some(id) => (Done, Emplace(MakeBo(g, id), h, id))
  }

  /** gralloc_gbm_bo_create from the point where the handle `h` exists; the result is the handle, or
      NULL when no bo could be made. */
  function Create(g: Registry, h: Handle, obtained: Option<BoId>): (Handle, Registry) {
    match obtained
    case None => (0, g)
    case Some(id) => (h, Emplace(MakeBo(g, id), h, id))
  }

  /** The lock record a lock works on: a missing one is allocated, zeroed. */
  function RecordOrFresh(data: Option<LockRecord>): LockRecord {
    if data.Some? then data.value else FRESH
  }

  /** gralloc_gbm_bo_lock. An entry for a bo that no longer exists, which Conserved excludes, counts as
      unbound. */
  function Lock(b: UsageBits, g: Registry, h: Handle, own: Usage, usage: Usage, answer: ValidMap): (Status, Registry) {
    var (bo, g1) := Lookup(g, h);
    if bo == None || bo.value !in g1.bos then (InvalidArgument, g1)
    else if !Permitted(b, own, usage) then (InvalidArgument, g1)
    else
      var o := LockRecordFor(b, RecordOrFresh(g1.bos[bo.value]), usage, answer);
      (o.status, g1.(bos := g1.bos[bo.value := Some(o.record)]))
  }

  /** What a lock asks of the library; `own` and `format` are stored in the handle. */
  function MapAsked(
    b: UsageBits, g: Registry, h: Handle, own: Usage, usage: Usage, format: HalFormat, rect: Rect): Option<MapRequest>
  {
    var bo := Lookup(g, h).0;
    if bo == None || bo.value !in g.bos || !Permitted(b, own, usage) then None
    else LockAsks(b, RecordOrFresh(g.bos[bo.value]), usage, format, rect)
  }

  /** A lock of a bound buffer that passes the usage check. */
  lemma LockOfBound(
    b: UsageBits, g: Registry, h: Handle, own: Usage, usage: Usage, format: HalFormat, rect: Rect, answer: ValidMap)
    requires Lookup(g, h).0.Some? && Lookup(g, h).0.value in g.bos && Permitted(b, own, usage)
    ensures var id, g1 := Lookup(g, h).0.value, Lookup(g, h).1;
      var r := RecordOrFresh(g.bos[id]);
      && g1.bos == g.bos
      && Lock(b, g, h, own, usage, answer)
           == (LockRecordFor(b, r, usage, answer).status,
               g1.(bos := g1.bos[id := Some(LockRecordFor(b, r, usage, answer).record)]))
      && MapAsked(b, g, h, own, usage, format, rect) == LockAsks(b, r, usage, format, rect)
  {}

  /** gralloc_gbm_bo_unlock; a bound buffer that was never locked has no record to read. */
  function Unlock(b: UsageBits, g: Registry, h: Handle): (Status, Registry) {
    var (bo, g1) := Lookup(g, h);
    if bo == None || bo.value !in g1.bos then (InvalidArgument, g1)
    else if g1.bos[bo.value] == None then (NullDereference, g1)
    else
      var o := UnlockRecord(b, g1.bos[bo.value].value);
      (o.status, g1.(bos := g1.bos[bo.value := Some(o.record)]))
  }

  /** The map data an unlock gives back to gbm_bo_unmap. */
  function GivenBack(b: UsageBits, g: Registry, h: Handle): Option<Address> {
    var bo := Lookup(g, h).0;
    if bo == None || bo.value !in g.bos || g.bos[bo.value] == None then None
    else UnlockRecord(b, g.bos[bo.value].value).mapping
  }

  // ---------------------------------------------------------------- operations as data

  datatype Op =
    | CreateOp(h: Handle, bo: Option<BoId>)
    | RegisterOp(h: Handle, bo: Option<BoId>)
    | FreeOp(h: Handle)  // also unregister
    | LockOp(h: Handle, own: Usage, usage: Usage, answer: ValidMap)
    | UnlockOp(h: Handle)

  function Do(b: UsageBits, g: Registry, op: Op): (Status, Registry) {
    match op
    case CreateOp(h, bo) =>
      var (result, g1) := Create(g, h, bo);
      (if result == 0 then OutOfMemory else Done, g1)
    case RegisterOp(h, bo) => Register(g, h, bo)
    case FreeOp(h) => (Done, Free(g, h))
    case LockOp(h, own, usage, answer) => Lock(b, g, h, own, usage, answer)
    case UnlockOp(h) => Unlock(b, g, h)
  }

  /** The library hands out bos that were never made before; the allocator hands out handles that are
      not NULL and not those of a live buffer. */
  predicate Plausible(g: Registry, op: Op) {
    match op
    case CreateOp(h, bo) => (bo.Some? ==> bo.value !in g.made) && h != 0 && h !in LiveMap(g)
    case RegisterOp(_, bo) => bo.Some? ==> bo.value !in g.made
    case _ => true
  }

  // ---------------------------------------------------------------- the plain map

  /** The non-null part of the map. */
  function LiveMap(g: Registry): map<Handle, BoId> {
    map h | h in g.entries && g.entries[h].Some? :: g.entries[h].value
  }

  /** The keys that lookups of unknown handles have left behind. */
  function Stale(g: Registry): set<Handle> {
    set h | h in g.entries && g.entries[h] == None
  }

  function RecordOf(g: Registry, h: Handle): Option<LockRecord> {
    if h in LiveMap(g) && LiveMap(g)[h] in g.bos then g.bos[LiveMap(g)[h]] else None
  }

  // ---------------------------------------------------------------- conservation

  predicate NoDuplicates<T(==)>(s: seq<T>) {
    forall i, j :: 0 <= i < j < |s| ==> s[i] != s[j]
  }

  predicate Injective(live: map<Handle, BoId>) {
    forall h, k :: h in live && k in live && h != k ==> live[h] != live[k]
  }

  /** Distinct live handles have distinct bos; the current bos are those reachable from a live handle and, apart
      from them, those leaked. */
  ghost predicate Accounted(live: map<Handle, BoId>, leaked: set<BoId>, current: set<BoId>) {
    && Injective(live)
    && live.Values !! leaked
    && current == live.Values + leaked
    && |current| == |live| + |leaked|
  }

  /** A bo made is current or destroyed but not both, and none was destroyed twice. */
  ghost predicate Ledger(current: set<BoId>, made: set<BoId>, destroyed: seq<BoId>) {
    && (forall id :: id in made <==> id in current || id in destroyed)
    && (forall id :: id in current ==> id !in destroyed)
    && NoDuplicates(destroyed)
    && |made| == |destroyed| + |current|
  }

  /** Every bo is accounted for, and exactly those of `leaked` are neither destroyed nor reachable. */
  ghost predicate ConservedBut(g: Registry, leaked: set<BoId>) {
    Accounted(LiveMap(g), leaked, g.bos.Keys) && Ledger(g.bos.Keys, g.made, g.destroyed)
  }

  ghost predicate Conserved(g: Registry) {
    ConservedBut(g, {})
  }

  /** Distinct live handles have distinct bos, which exist; and what exists was made. */
  ghost predicate Separate(g: Registry) {
    && Injective(LiveMap(g))
    && (forall h :: h in LiveMap(g) ==> LiveMap(g)[h] in g.bos)
    && g.bos.Keys <= g.made
  }
}
