/** The gralloc module with its lock records as objects updated in place, proved against the registry
    specification. */
module GbmModule {
  import opened Options
  import opened GbmFormats
  import opened GbmLocks
  import Reg = GbmRegistry

  type Handle = Reg.Handle
  type BoId = Reg.BoId

  /** struct bo_data_t */
  class BoData {
    var mapData: Address
    var lockCount: nat
    var lockedFor: Usage

    constructor ()
      ensures Record() == FRESH
    {
      mapData, lockCount, lockedFor := 0, 0, {};
    }

    ghost function Record(): LockRecord reads this {
      LockRecord(mapData, lockCount, lockedFor)
    }

    /** gbm_map; `asked` is what it asks of the library, which answers `answer`. */
    method Map(format: HalFormat, rect: Rect, enableWrite: bool, answer: ValidMap)
      returns (status: Status, address: Address, asked: Option<MapRequest>)
      modifies this`mapData
      ensures var o := MapRecord(old(Record()), answer);
        status == o.status && address == o.address && Record() == o.record
      ensures asked == if old(mapData) != 0 then None
                       else Some(MapRequest(MapExtent(format, rect.x, rect.y, rect.w, rect.h), enableWrite))
    {
      if mapData != 0 {
        return InvalidArgument, 0, None;
      }
      var w, h := rect.w, rect.h;
      if format == YV12 {
        w := w / 2;
        h := h + h / 2;
      }
      asked := Some(MapRequest((rect.x + w, rect.y + h), enableWrite));
      if answer.Mapped? {
        mapData := answer.data;
        return Done, answer.address, asked;
      }
      return OutOfMemory, 0, asked;
    }

    /** gbm_unmap; returns the pointer given back to the library. */
    method Unmap() returns (given: Address)
      modifies this`mapData
      ensures given == old(mapData) && mapData == 0
    {
      given := mapData;
      mapData := 0;
    }

    /** gralloc_gbm_bo_lock once the record is at hand. */
    method Lock(b: UsageBits, usage: Usage, format: HalFormat, rect: Rect, answer: ValidMap)
      returns (status: Status, address: Address, asked: Option<MapRequest>)
      modifies this
      ensures var o := LockRecordFor(b, old(Record()), usage, answer);
        status == o.status && address == o.address && Record() == o.record
      ensures asked == LockAsks(b, old(Record()), usage, format, rect)
      ensures address == if asked.Some? && answer.Mapped? then answer.address else 0
    {
      status, address, asked := Done, 0, None;
      if lockCount != 0 && !(usage <= lockedFor) {
        return InvalidArgument, 0, None;
      }
      var wanted := usage + lockedFor;
      if Sw(b, wanted) {
        var write := Has(wanted, b.swWriteMask);
        status, address, asked := Map(format, rect, write, answer);
        if status != Done {
          return;
        }
      }
      lockCount := lockCount + 1;
      lockedFor := lockedFor + wanted;
    }

    /** gralloc_gbm_bo_unlock once the record is at hand. */
    method Unlock(b: UsageBits) returns (given: Option<Address>)
      modifies this
      ensures var o := UnlockRecord(b, old(Record()));
        given == o.mapping && Record() == o.record
    {
      var mapped := Sw(b, lockedFor);
      given := None;
      if lockCount == 0 {
        return;
      }
      if mapped {
        var address := Unmap();
        given := Some(address);
      }
      lockCount := lockCount - 1;
      if lockCount == 0 {
        lockedFor := {};
      }
    }
  }

  /** gbm_module_t together with gbm_bo_handle_map. */
  class GrallocModule {
    const bits: UsageBits
    var locked: bool
    var device: Option<nat>
    var entries: map<Handle, Option<BoId>>
    var bos: map<BoId, BoData?>
    ghost var made: set<BoId>
    ghost var destroyed: seq<BoId>

    ghost function Repr(): set<object> reads this`bos {
      set id | id in bos && bos[id] != null :: bos[id] as object
    }

    /** No two bos share a lock record. */
    ghost predicate Valid() reads this`bos {
      forall i, j :: i in bos && j in bos && i != j && bos[i] != null ==> bos[i] != bos[j]
    }

    ghost function DataOf(data: BoData?): Option<LockRecord>
      reads data
    {
      if data == null then None else Some(data.Record())
    }

    ghost function Records(): map<BoId, Option<LockRecord>> reads this`bos, Repr() {
      map id | id in bos :: DataOf(bos[id])
    }

    ghost function Shown(): Reg.Registry
      reads this`entries, this`bos, this`made, this`destroyed, Repr()
    {
      Reg.Registry(entries, Records(), made, destroyed)
    }

    constructor (bits: UsageBits)
      ensures Valid() && !locked && device == None && this.bits == bits
      ensures Shown() == Reg.EMPTY && Repr() == {}
    {
      this.bits := bits;
      locked, device := false, None;
      entries, bos := map[], map[];
      made, destroyed := {}, [];
    }

    /** gralloc_gbm_bo_from_handle */
    method BoFromHandle(h: Handle) returns (bo: Option<BoId>)
      requires Valid()
      modifies this`entries
      ensures Valid()
      ensures (bo, Shown()) == Reg.Lookup(old(Shown()), h)
    {
      if h !in entries {
        entries := entries[h := None];
      }
      bo := entries[h];
      assert Records() == old(Records());
    }

    /** gbm_bo_destroy, which deletes the lock record with the bo. */
    method DropBo(id: BoId)
      requires Valid()
      modifies this`bos
      ensures Valid() && Repr() <= old(Repr()) && Records() == old(Records()) - {id}
    {
      bos := bos - {id};
      assert Records() == old(Records()) - {id};
    }

    /** gbm_free */
    method GbmFree(h: Handle)
      requires Valid()
      modifies this`entries, this`bos, this`destroyed
      ensures Valid() && Repr() <= old(Repr())
      ensures Shown() == Reg.Free(old(Shown()), h)
    {
      var bo := BoFromHandle(h);
      if bo == None {
        return;
      }
      entries := entries - {h};
      ghost var before := Records();
      DropBo(bo.value);
      assert Records() == before - {bo.value};
      destroyed := destroyed + [bo.value];
    }

    /** gralloc_gbm_handle_register; `imported` is the bo made by gbm_import. */
    method HandleRegister(h: Handle, imported: Option<BoId>) returns (status: Status)
      requires Valid() && (imported.Some? ==> imported.value !in made)
      modifies this`entries, this`bos, this`made
      ensures Valid() && Repr() <= old(Repr())
      ensures (status, Shown()) == Reg.Register(old(Shown()), h, imported)
    {
      if h == 0 {
        return InvalidArgument;
      }
      if h in entries {
        return InvalidArgument;
      }
      if imported == None {
        return InvalidArgument;
      }
      ghost var before := Records();
      bos := bos[imported.value := null];
      assert Records() == before[imported.value := None];
      made := made + {imported.value};
      entries := entries[h := imported];
      assert Records() == before[imported.value := None];
      status := Done;
    }

    /** gralloc_gbm_bo_create; `answer` is the bo and the byte stride, if gbm_bo_create made one. It
        never does for a format the tables do not know. */
    method BoCreate(h: Handle, format: HalFormat, answer: Option<(BoId, nat)>) returns (result: Handle, stride: nat)
      requires Valid() && (answer.Some? ==> answer.value.0 !in made && GbmFormatOf(format).Some?)
      modifies this`entries, this`bos, this`made
      ensures Valid() && Repr() <= old(Repr())
      ensures (result, Shown())
           == Reg.Create(old(Shown()), h, if answer.Some? then Some(answer.value.0) else None)
      ensures answer.Some? ==> stride == PixelStride(format, answer.value.1)
    {
      stride := 0;
      if answer == None {
        return 0, 0;
      }
      var id := answer.value.0;
      ghost var before := Records();
      bos := bos[id := null];
      assert Records() == before[id := None];
      made := made + {id};
      if h !in entries {
        entries := entries[h := Some(id)];
      }
      assert Records() == before[id := None];
      return h, answer.value.1 / Bpp(format);
    }

    /** The lock record of a bo, allocated when it is missing. */
    method EnsureData(id: BoId) returns (data: BoData)
      requires Valid() && id in bos
      modifies this`bos
      ensures Valid() && fresh(Repr() - old(Repr()))
      ensures id in bos && bos[id] == data && data.Record() == Reg.RecordOrFresh(old(Records())[id])
      ensures Records() == old(Records())[id := Some(data.Record())]
    {
      var present := bos[id];
      if present == null {
        data := new BoData();
        bos := bos[id := data];
      } else {
        data := present;
      }
      assert Records() == old(Records())[id := Some(data.Record())];
    }

    /** The check of a lock's usage against the usage stored in the handle. */
    method Admits(own: Usage, usage: Usage) returns (admitted: bool)
      ensures admitted == Permitted(bits, own, usage)
    {
      if own * usage != usage {
        if !Has(own, bits.swReadOften) && !Has(own, bits.hwFb) && !Has(own, bits.hwTexture) {
          return false;
        }
      }
      return true;
    }

    /** The part of gralloc_gbm_bo_lock that works on the lock record. */
    method LockBo(id: BoId, usage: Usage, format: HalFormat, rect: Rect, answer: ValidMap)
      returns (status: Status, address: Address, asked: Option<MapRequest>)
      requires Valid() && id in bos
      modifies this`bos, Repr()
      ensures Valid() && fresh(Repr() - old(Repr()))
      ensures var o := LockRecordFor(bits, Reg.RecordOrFresh(old(Records())[id]), usage, answer);
        status == o.status && address == o.address && Records() == old(Records())[id := Some(o.record)]
      ensures asked == LockAsks(bits, Reg.RecordOrFresh(old(Records())[id]), usage, format, rect)
      ensures address == if asked.Some? && answer.Mapped? then answer.address else 0
    {
      ghost var before := Records();
      var data := EnsureData(id);
      status, address, asked := data.Lock(bits, usage, format, rect, answer);
      assert Records() == before[id := Some(data.Record())];
    }

    /** gralloc_gbm_bo_lock; `own` and `format` are stored in the handle. */
    method BoLock(h: Handle, own: Usage, format: HalFormat, usage: Usage, rect: Rect, answer: ValidMap)
      returns (status: Status, address: Address, asked: Option<MapRequest>)
      requires Valid()
      modifies this`entries, this`bos, Repr()
      ensures Valid() && fresh(Repr() - old(Repr()))
      ensures (status, Shown()) == Reg.Lock(bits, old(Shown()), h, own, usage, answer)
      ensures asked == Reg.MapAsked(bits, old(Shown()), h, own, usage, format, rect)
      ensures address == if asked.Some? && answer.Mapped? then answer.address else 0
    {
      ghost var before := Shown();
      var bo := BoFromHandle(h);
      assert Shown() == Reg.Lookup(before, h).1;
      if bo == None || bo.value !in bos {
        return InvalidArgument, 0, None;
      }
      var admitted := Admits(own, usage);
      if !admitted {
        return InvalidArgument, 0, None;
      }
      Reg.LockOfBound(bits, before, h, own, usage, format, rect, answer);
      status, address, asked := LockBo(bo.value, usage, format, rect, answer);
    }

    /** gralloc_gbm_bo_unlock; `given` is the map data given back to the library. */
    method BoUnlock(h: Handle) returns (status: Status, given: Option<Address>)
      requires Valid()
      modifies this`entries, Repr()
      ensures Valid() && Repr() == old(Repr())
      ensures (status, Shown()) == Reg.Unlock(bits, old(Shown()), h)
      ensures given == Reg.GivenBack(bits, old(Shown()), h)
    {
      ghost var before := Records();
      var bo := BoFromHandle(h);
      if bo == None || bo.value !in bos {
        return InvalidArgument, None;
      }
      var data := bos[bo.value];
      if data == null {
        return NullDereference, None;
      }
      given := data.Unlock(bits);
      assert Records() == before[bo.value := Some(data.Record())];
      status := Done;
    }

    // ---------------------------------------------------------------- entry points

    /** gbm_init; `dev` is the device gbm_dev_create made, if it made one. */
    method GbmInit(dev: Option<nat>) returns (status: Status)
      requires !locked
      modifies this`locked, this`device
      ensures !locked
      ensures device == if old(device).Some? then old(device) else dev
      ensures status == if device.Some? then Done else InvalidArgument
    {
      locked := true;
      status := Done;
      if device == None {
        device := dev;
        if device == None {
          status := InvalidArgument;
        }
      }
      locked := false;
    }

    /** gbm_mod_register_buffer */
    method ModRegisterBuffer(h: Handle, dev: Option<nat>, imported: Option<BoId>) returns (status: Status)
      requires Valid() && !locked && (imported.Some? ==> imported.value !in made)
      modifies this
      ensures Valid() && !locked
      ensures device == if old(device).Some? then old(device) else dev
      ensures old(device) == None && dev == None ==> status == InvalidArgument && Shown() == old(Shown())
      ensures old(device).Some? || dev.Some? ==>
        device.Some? && (status, Shown()) == Reg.Register(old(Shown()), h, imported)
    {
      status := GbmInit(dev);
      if status != Done {
        return;
      }
      locked := true;
      status := HandleRegister(h, imported);
      locked := false;
    }

    /** gbm_mod_unregister_buffer */
    method ModUnregisterBuffer(h: Handle) returns (status: Status)
      requires Valid() && !locked
      modifies this
      ensures Valid() && !locked && device == old(device)
      ensures status == Done && Shown() == Reg.Free(old(Shown()), h)
    {
      locked := true;
      GbmFree(h);
      locked := false;
      status := Done;
    }

    /** gbm_mod_lock */
    method ModLock(h: Handle, own: Usage, format: HalFormat, usage: Usage, rect: Rect, answer: ValidMap)
      returns (status: Status, address: Address, asked: Option<MapRequest>)
      requires Valid() && !locked
      modifies this, Repr()
      ensures Valid() && !locked && device == old(device)
      ensures (status, Shown()) == Reg.Lock(bits, old(Shown()), h, own, usage, answer)
      ensures asked == Reg.MapAsked(bits, old(Shown()), h, own, usage, format, rect)
      ensures address == if asked.Some? && answer.Mapped? then answer.address else 0
    {
      locked := true;
      status, address, asked := BoLock(h, own, format, usage, rect, answer);
      locked := false;
    }

    /** gbm_mod_unlock */
    method ModUnlock(h: Handle) returns (status: Status, given: Option<Address>)
      requires Valid() && !locked
      modifies this, Repr()
      ensures Valid() && !locked && device == old(device)
      ensures (status, Shown()) == Reg.Unlock(bits, old(Shown()), h)
      ensures given == Reg.GivenBack(bits, old(Shown()), h)
    {
      locked := true;
      status, given := BoUnlock(h);
      locked := false;
    }

    /** gbm_mod_alloc_gpu0 */
    method ModAlloc(h: Handle, format: HalFormat, answer: Option<(BoId, nat)>)
      returns (status: Status, result: Handle, stride: nat)
      requires Valid() && !locked && h != 0
      requires answer.Some? ==> answer.value.0 !in made && GbmFormatOf(format).Some?
      modifies this
      ensures Valid() && !locked && device == old(device)
      ensures (status, Shown())
           == Reg.Do(bits, old(Shown()), Reg.CreateOp(h, if answer.Some? then Some(answer.value.0) else None))
      ensures status == Done <==> answer.Some?
      ensures result == if answer.Some? then h else 0
      ensures answer.Some? ==> stride == PixelStride(format, answer.value.1)
    {
      locked := true;
      result, stride := BoCreate(h, format, answer);
      status := if result == 0 then OutOfMemory else Done;
      locked := false;
    }

    /** gbm_mod_free_gpu0 */
    method ModFree(h: Handle)
      requires Valid() && !locked
      modifies this
      ensures Valid() && !locked && device == old(device)
      ensures Shown() == Reg.Free(old(Shown()), h)
    {
      locked := true;
      GbmFree(h);
      locked := false;
    }
  }
}
