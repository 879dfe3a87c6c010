/**
 The global-allocator adapter: which of two allocators serves each call.

 Allocations made inside a bootstrap window come from the system allocator; all others come
 from the engine, built lazily on first use. The system allocator's behaviour on a pointer
 that is not its own is undefined: the model records that pointer as misused and says no more
 about it. The addresses the allocators choose are parameters.
 */
module GlobalAdapter {
  import opened Wrappers

  type Tid = int

  datatype Layout = Layout(size: nat, align: nat)

  /** A live allocation: its layout and its bytes. */
  datatype Block = Block(layout: Layout, bytes: seq<int>)

  /** The bytes after resizing: the common prefix kept, the rest arbitrary. */
  predicate Resized(old_: Block, new_: Block, size: nat) {
    |new_.bytes| == size && new_.layout.size == size &&
    forall i :: 0 <= i < Min(|old_.bytes|, size) ==> new_.bytes[i] == old_.bytes[i]
  }

  /** The system allocator. */
  class System {
    var blocks: map<int, Block>
    var misused: set<int>        // pointers it was handed that were not its own

    ghost predicate Valid()
      reads this
    {
      forall p :: p in blocks ==> |blocks[p].bytes| == blocks[p].layout.size
    }

    constructor ()
      ensures Valid() && blocks == map[] && misused == {}
    {
      blocks := map[];
      misused := {};
    }

    method Alloc(layout: Layout, at: Option<int>, bytes: seq<int>) returns (p: Option<int>)
      requires Valid() && |bytes| == layout.size
      requires at.Some? ==> at.value !in blocks
      modifies this`blocks
      ensures Valid() && p == at
      ensures blocks == if at.Some? then old(blocks)[at.value := Block(layout, bytes)] else old(blocks)
    {
      if at.Some? { blocks := blocks[at.value := Block(layout, bytes)]; }
      p := at;
    }

    /** Proper only for a live pointer of this allocator, with the layout it was allocated with. */
    method Dealloc(p: int, layout: Layout)
      requires Valid() && (p in blocks ==> blocks[p].layout == layout)
      modifies this
      ensures Valid() && blocks == old(blocks) - {p}
      ensures misused == if p in old(blocks) then old(misused) else old(misused) + {p}
    {
      if p !in blocks { misused := misused + {p}; }
      blocks := blocks - {p};
    }

    method Realloc(p: int, layout: Layout, size: nat, at: Option<int>, tail: seq<int>) returns (q: Option<int>)
      requires Valid() && (p in blocks ==> blocks[p].layout == layout)
      requires at.Some? ==> at.value == p || at.value !in blocks
      requires |tail| >= size
      modifies this
      ensures Valid() && q == if p in old(blocks) then at else None
      ensures misused == if p in old(blocks) then old(misused) else old(misused) + {p}
      ensures q.None? ==> blocks == old(blocks)
      ensures q.Some? ==> q.value in blocks && Resized(old(blocks[p]), blocks[q.value], size)
      ensures q.Some? ==> blocks == (old(blocks) - {p})[q.value := blocks[q.value]]
      ensures q.Some? ==> blocks[q.value].layout.align == layout.align
    {
      if p !in blocks {
        misused := misused + {p};
        return None;
      }
      if at.Some? {
        var b := blocks[p];
        var kept := Min(|b.bytes|, size);
        blocks := (blocks - {p})[at.value := Block(Layout(size, layout.align), b.bytes[..kept] + tail[..size - kept])];
      }
      q := at;
    }
  }

  datatype FreeOutcome = Freed | Foreign | Invalid

  /** The engine: it recognizes every address it ever served. */
  class Engine {
    var blocks: map<int, Block>
    var served: set<int>

    ghost predicate Valid()
      reads this
    {
      forall p :: p in blocks ==> p in served && |blocks[p].bytes| == blocks[p].layout.size
    }

    constructor ()
      ensures Valid() && blocks == map[] && served == {}
    {
      blocks := map[];
      served := {};
    }

    method Allocate(layout: Layout, at: Option<int>, bytes: seq<int>) returns (p: Option<int>)
      requires Valid() && |bytes| == layout.size
      requires at.Some? ==> at.value !in blocks
      modifies this
      ensures Valid() && p == at
      ensures blocks == if at.Some? then old(blocks)[at.value := Block(layout, bytes)] else old(blocks)
      ensures served == if at.Some? then old(served) + {at.value} else old(served)
    {
      if at.Some? {
        blocks := blocks[at.value := Block(layout, bytes)];
        served := served + {at.value};
      }
      p := at;
    }

    /** Frees what it owns; reports anything else and changes nothing. */
    method Free(p: int) returns (r: FreeOutcome)
      requires Valid()
      modifies this
      ensures Valid() && served == old(served)
      ensures blocks == old(blocks) - {p}
      ensures r == if p in old(blocks) then Freed else if p in served then Invalid else Foreign
    {
      r := if p in blocks then Freed else if p in served then Invalid else Foreign;
      blocks := blocks - {p};
    }

    /** Stores `prefix` at the start of a live block. */
    method Write(p: int, prefix: seq<int>)
      requires Valid() && p in blocks && |prefix| <= |blocks[p].bytes|
      modifies this`blocks
      ensures Valid()
      ensures blocks == old(blocks)[p := old(blocks[p]).(bytes := prefix + old(blocks[p]).bytes[|prefix|..])]
    {
      blocks := blocks[p := blocks[p].(bytes := prefix + blocks[p].bytes[|prefix|..])];
    }

    method Realloc(p: int, size: nat, align: nat, at: Option<int>, tail: seq<int>) returns (q: Option<int>)
      requires Valid() && p in blocks && |tail| >= size
      requires at.Some? ==> at.value == p || at.value !in blocks
      modifies this
      ensures Valid() && q == at
      ensures at.None? ==> blocks == old(blocks) && served == old(served)
      ensures at.Some? ==> at.value in blocks && Resized(old(blocks[p]), blocks[at.value], size)
      ensures at.Some? ==> blocks == (old(blocks) - {p})[at.value := blocks[at.value]]
      ensures at.Some? ==> served == old(served) + {at.value}
      ensures at.Some? ==> blocks[at.value].layout.align == align
    {
      if at.Some? {
        var b := blocks[p];
        var kept := Min(|b.bytes|, size);
        blocks := (blocks - {p})[at.value := Block(Layout(size, align), b.bytes[..kept] + tail[..size - kept])];
        served := served + {at.value};
      }
      q := at;
    }
  }

  // ---- where a free goes ----

  datatype Allocator = ToSystem | ToEngine | Nowhere

  /** The allocator `dealloc` hands the pointer to. */
  function FreeGoesTo(window: bool, up: bool, live: set<int>, served: set<int>, p: int): Allocator {
    if window || !up then ToSystem
    else if p in live then ToEngine
    else if p in served then Nowhere
    else ToSystem
  }

  // ---- the adapter ----

  /** The flag and the values its open windows saved, outermost first. */
  ghost predicate WindowsOk(flag: bool, saved: seq<bool>) {
    (flag <==> saved != []) && forall i :: 0 <= i < |saved| ==> (saved[i] <==> i > 0)
  }

  /** The client holds every live block but the lost ones. */
  ghost predicate Holds(owned: map<int, Block>, sys: map<int, Block>, eng: map<int, Block>, lost: set<int>) {
    && (forall p :: p in owned <==> p in sys || (p in eng && p !in lost))
    && (forall p :: p in sys && p in owned ==> owned[p] == sys[p])
    && (forall p :: p in eng && p in owned && p !in sys ==> owned[p] == eng[p])
  }

  datatype Global = Unbuilt | NoEngine | Built

  /**
   The adapter over the two allocators, with each thread's bootstrap flag. `owned` is what the
   client program holds: every pointer it was given and has not given back, with the bytes it
   sees there. `lost` is what it gave back and the engine never saw freed.
   */
  class TopoMallocGlobal {
    const system: System
    const engine: Engine
    var global: Global
    var bootstrapping: map<Tid, bool>
    ghost var saved: map<Tid, seq<bool>>
    ghost var owned: map<int, Block>
    ghost var lost: set<int>

    /**
     Nothing is held twice: the client's pointers are the live blocks but the lost ones, and a
     pointer is lost only if it was misused.
     */
    ghost predicate Valid()
      reads this, system, engine
    {
      && system.Valid() && engine.Valid()
      && (forall t :: t in bootstrapping <==> t in saved)
      && (forall t :: t in saved && t in bootstrapping ==> WindowsOk(bootstrapping[t], saved[t]))
      && (global != Built ==> engine.served == {})
      && (forall p :: p in system.blocks ==> p !in engine.served)
      && Holds(owned, system.blocks, engine.blocks, lost)
      && (forall p :: p in lost ==> p in engine.blocks && p in system.misused)
    }

    /** A live block is held by the client or lost. */
    ghost predicate Accounted(p: int)
      reads this, system, engine
    {
      (p in system.blocks ==> p in owned) && (p in engine.blocks ==> p in owned || p in lost)
    }

    constructor (threads: set<Tid>)
      ensures Valid() && owned == map[] && lost == {} && system.misused == {}
      ensures saved == (map t | t in threads :: []) && global == Unbuilt && fresh(system) && fresh(engine)
    {
      system := new System();
      engine := new Engine();
      global, owned, lost := Unbuilt, map[], {};
      bootstrapping := map t | t in threads :: false;
      saved := map t | t in threads :: [];
    }

    /** Opens a bootstrap window; the result is what closing it restores. */
    method EnterWindow(t: Tid) returns (guard: bool)
      requires Valid() && t in saved
      modifies this`bootstrapping, this`saved
      ensures Valid() && saved == old(saved)[t := old(saved[t]) + [guard]]
      ensures t in bootstrapping && bootstrapping[t]
    {
      guard := bootstrapping[t];
      bootstrapping := bootstrapping[t := true];
      saved := saved[t := saved[t] + [guard]];
    }

    /** Closes the innermost window. */
    method LeaveWindow(t: Tid, guard: bool)
      requires Valid() && t in saved && saved[t] != [] && guard == saved[t][|saved[t]| - 1]
      modifies this`bootstrapping, this`saved
      ensures Valid() && saved == old(saved)[t := old(saved[t])[..|old(saved[t])| - 1]]
      ensures t in bootstrapping && (bootstrapping[t] <==> saved[t] != [])
    {
      bootstrapping := bootstrapping[t := guard];
      saved := saved[t := saved[t][..|saved[t]| - 1]];
    }

    /** Builds the engine on first use; `works` says whether its memory can be reserved. */
    method GetGlobal(works: bool) returns (up: bool)
      requires Valid()
      modifies this`global
      ensures Valid() && up == (global == Built) && global != Unbuilt
      ensures old(global) != Unbuilt ==> global == old(global)
      ensures old(global) == Unbuilt ==> up == works
    {
      if global == Unbuilt { global := if works then Built else NoEngine; }
      up := global == Built;
    }

    /** The call goes to the engine: the thread has no window open and the engine can be built. */
    ghost predicate UsesEngine(t: Tid, works: bool)
      reads this
      requires t in bootstrapping
    {
      !bootstrapping[t] && (global == Built || (global == Unbuilt && works))
    }

    method Alloc(t: Tid, layout: Layout, works: bool, at: Option<int>, bytes: seq<int>) returns (p: Option<int>)
      requires Valid() && t in bootstrapping && |bytes| == layout.size
      requires at.Some? ==> at.value !in owned && at.value !in lost
      requires at.Some? && !UsesEngine(t, works) ==> at.value !in engine.served
      modifies this`global, this`owned, system`blocks, engine
      ensures Valid() && (p.Some? ==> p == at && p.value !in old(owned))
      ensures owned == if p.Some? then old(owned)[p.value := Block(layout, bytes)] else old(owned)
      ensures bootstrapping[t] ==> engine.blocks == old(engine.blocks) && global == old(global)
      ensures !bootstrapping[t] ==> system.blocks == old(system.blocks)
      ensures old(UsesEngine(t, works)) ==> p == at && (p.Some? ==> p.value in engine.blocks)
    {
      if at.Some? { assert Accounted(at.value); }
      if bootstrapping[t] {
        p := system.Alloc(layout, at, bytes);
      } else {
        var up := GetGlobal(works);
        if !up { return None; }
        p := engine.Allocate(layout, at, bytes);
      }
      if p.Some? { owned := owned[p.value := Block(layout, bytes)]; }
    }

    /**
     Gives the pointer back to the allocator the routing names. That is the one that produced
     it, except for an engine pointer freed in a window, which is misused and lost.
     */
    method Dealloc(t: Tid, p: int, layout: Layout, works: bool)
      requires Valid() && t in bootstrapping && p in owned && owned[p].layout == layout
      modifies this`global, this`owned, this`lost, system, engine
      ensures Valid() && owned == old(owned) - {p}
      ensures match FreeGoesTo(bootstrapping[t], global == Built, old(engine.blocks.Keys), old(engine.served), p)
              case ToEngine => engine.blocks == old(engine.blocks) - {p} && system.blocks == old(system.blocks)
              case ToSystem => system.blocks == old(system.blocks) - {p} && engine.blocks == old(engine.blocks)
              case Nowhere => system.blocks == old(system.blocks) && engine.blocks == old(engine.blocks)
      ensures var own := if p in old(engine.blocks) then ToEngine else ToSystem;
              var went := FreeGoesTo(bootstrapping[t], global == Built, old(engine.blocks.Keys), old(engine.served), p);
              went == own <==> !(bootstrapping[t] && p in old(engine.blocks))
      ensures var wrong := bootstrapping[t] && p in old(engine.blocks);
              && system.misused == (if wrong then old(system.misused) + {p} else old(system.misused))
              && lost == (if wrong then old(lost) + {p} else old(lost))
    {
      if bootstrapping[t] {
        if p in engine.blocks { lost := lost + {p}; }
        system.Dealloc(p, layout);
      } else {
        var up := GetGlobal(works);
        if up {
          var r := engine.Free(p);
          if r == Foreign { system.Dealloc(p, layout); }
        } else {
          system.Dealloc(p, layout);
        }
      }
      owned := owned - {p};
    }

    /** A system pointer moves to the engine: allocate, copy, then give the original back. */
    method Migrate(p: int, layout: Layout, size: nat, at: Option<int>, tail: seq<int>) returns (q: Option<int>)
      requires Valid() && p in system.blocks && system.blocks[p].layout == layout && |tail| >= size
      requires global == Built && (at.Some? ==> at.value !in owned && at.value !in lost)
      modifies this`owned, system, engine
      ensures Valid() && q == at && system.misused == old(system.misused)
      ensures q.Some? ==> q.value in engine.blocks && Resized(old(system.blocks[p]), engine.blocks[q.value], size)
      ensures q.Some? ==> owned == (old(owned) - {p})[q.value := engine.blocks[q.value]]
      ensures q.None? ==> owned == old(owned) && system.blocks == old(system.blocks) && engine.blocks == old(engine.blocks)
    {
      if at.Some? { assert Accounted(at.value); }
      q := engine.Allocate(Layout(size, layout.align), at, tail[..size]);
      if q.Some? {
        var copy := Min(layout.size, size);
        engine.Write(q.value, system.blocks[p].bytes[..copy]);
        system.Dealloc(p, layout);
        owned := (owned - {p})[q.value := engine.blocks[q.value]];
      }
    }

    /**
     Resizes: a system pointer met outside the window moves to the engine, everything else
     stays with its allocator. The common prefix survives; a failure changes nothing. An engine
     pointer resized in a window is misused.
     */
    method Realloc(t: Tid, p: int, layout: Layout, size: nat, works: bool, at: Option<int>, tail: seq<int>)
      returns (q: Option<int>)
      requires Valid() && t in bootstrapping && p in owned && owned[p].layout == layout && |tail| >= size
      requires at.Some? ==> at.value !in lost
      requires at.Some? ==> at.value !in owned || (at.value == p && (UsesEngine(t, works) ==> p in engine.blocks))
      requires at.Some? && !UsesEngine(t, works) ==> at.value !in engine.served
      modifies this`global, this`owned, system, engine
      ensures Valid() && (q.Some? ==> q.value in owned && Resized(old(owned[p]), owned[q.value], size))
      ensures q.Some? ==> owned == (old(owned) - {p})[q.value := owned[q.value]]
      ensures q.None? ==> owned == old(owned) && system.blocks == old(system.blocks) && engine.blocks == old(engine.blocks)
      ensures system.misused ==
              if bootstrapping[t] && p in old(engine.blocks) then old(system.misused) + {p} else old(system.misused)
    {
      if bootstrapping[t] {
        q := SystemRealloc(p, layout, size, at, tail);
        return;
      }
      var up := GetGlobal(works);
      if !up {
        q := SystemRealloc(p, layout, size, at, tail);
      } else if p in engine.served {
        q := engine.Realloc(p, size, layout.align, at, tail);
        if q.Some? { owned := (owned - {p})[q.value := engine.blocks[q.value]]; }
      } else {
        q := Migrate(p, layout, size, at, tail);
      }
    }

    method SystemRealloc(p: int, layout: Layout, size: nat, at: Option<int>, tail: seq<int>) returns (q: Option<int>)
      requires Valid() && p in owned && owned[p].layout == layout && |tail| >= size
      requires at.Some? ==> at.value !in engine.served && (at.value == p || at.value !in owned)
      modifies this`owned, system
      ensures Valid() && q == if p in old(system.blocks) then at else None
      ensures system.misused == if p in old(system.blocks) then old(system.misused) else old(system.misused) + {p}
      ensures q.Some? ==> q.value in owned && Resized(old(system.blocks[p]), owned[q.value], size)
      ensures q.Some? ==> owned == (old(owned) - {p})[q.value := owned[q.value]]
      ensures q.None? ==> owned == old(owned) && system.blocks == old(system.blocks)
    {
      q := system.Realloc(p, layout, size, at, tail);
      if q.Some? { owned := (owned - {p})[q.value := system.blocks[q.value]]; }
    }

    /** The client stores to its own memory. */
    method ClientWrite(p: int, i: nat, v: int)
      requires Valid() && p in owned && i < |owned[p].bytes|
      modifies this`owned, system`blocks, engine
      ensures Valid() && owned == old(owned)[p := old(owned[p]).(bytes := old(owned[p]).bytes[i := v])]
    {
      if p in engine.blocks {
        engine.blocks := engine.blocks[p := engine.blocks[p].(bytes := engine.blocks[p].bytes[i := v])];
      } else {
        system.blocks := system.blocks[p := system.blocks[p].(bytes := system.blocks[p].bytes[i := v])];
      }
      owned := owned[p := owned[p].(bytes := owned[p].bytes[i := v])];
    }
  }

  /**
   It does happen: from a fresh adapter, an engine pointer freed in a window reaches the system
   allocator, and the engine keeps the block nobody holds.
   */
  method InWindowFreeOfEnginePointer(p: int, layout: Layout, bytes: seq<int>) returns (a: TopoMallocGlobal)
    requires |bytes| == layout.size
    ensures fresh(a) && fresh(a.system) && fresh(a.engine) && a.Valid()
    ensures p in a.system.misused && p !in a.owned && p in a.engine.blocks && p in a.lost
  {
    a := new TopoMallocGlobal({0});
    var q := a.Alloc(0, layout, true, Some(p), bytes);
    var guard := a.EnterWindow(0);
    a.Dealloc(0, p, layout, true);
    a.LeaveWindow(0, guard);
  }
}
