/** The classes behind `CodePatcher`: the global wrapper registry and the object that patches functions. */
module StubExt {
  import opened Bytes
  import opened CodePatcher

  /** The map `stub_wrappers` and the wrappers allocated so far. */
  class Registry {
    var stubWrappers: map<nat, nat>
    var live: set<nat>

    constructor ()
      ensures stubWrappers == map[] && live == {}
    {
      stubWrappers, live := map[], {};
    }

    /** Erases every entry of the wrapper and deletes it. */
    method FreeWrapper(wrapper: nat)
      modifies this
      ensures stubWrappers == Freed(old(stubWrappers), wrapper) && live == old(live) - {wrapper}
    {
      var todo := stubWrappers.Keys;
      while todo != {}
        invariant todo <= stubWrappers.Keys && live == old(live)
        invariant forall id :: id in stubWrappers ==> id in old(stubWrappers) && stubWrappers[id] == old(stubWrappers)[id]
        invariant forall id :: id in old(stubWrappers) && old(stubWrappers)[id] != wrapper ==> id in stubWrappers
        invariant forall id :: id in stubWrappers && id !in todo ==> stubWrappers[id] != wrapper
        decreases todo
      {
        var id :| id in todo;
        if stubWrappers[id] == wrapper {
          stubWrappers := stubWrappers - {id};
        }
        todo := todo - {id};
      }
      live := live - {wrapper};
      assert stubWrappers == Freed(old(stubWrappers), wrapper);
    }

    /** `depictShadow`: a new wrapper, registered under the address of the replacement function. */
    method DepictShadow(shadow: nat, wrapper: nat)
      requires shadow !in stubWrappers && wrapper !in live
      modifies this
      ensures stubWrappers == old(stubWrappers)[shadow := wrapper] && live == old(live) + {wrapper}
    {
      live := live + {wrapper};
      stubWrappers := stubWrappers[shadow := wrapper];
    }
  }

  class StubExt {
    const mem: array<Byte>
    const registry: Registry
    var mResult: map<nat, FuncStub>
    var mWrappers: map<nat, nat>
    ghost var targets: map<nat, nat>
    ghost const orig: seq<Byte>

    constructor (mem: array<Byte>, registry: Registry)
      requires forall id :: id in registry.stubWrappers ==> registry.stubWrappers[id] in registry.live
      ensures this.mem == mem && this.registry == registry && orig == mem[..]
      ensures Valid() && mResult == map[]
    {
      this.mem, this.registry, this.orig := mem, registry, mem[..];
      mResult, mWrappers, targets := map[], map[], map[];
    }

    ghost function Now(): State
      reads this, mem, registry
    {
      State(mem[..], mResult, mWrappers, targets, registry.stubWrappers, registry.live)
    }

    ghost predicate Valid()
      reads this, mem, registry
    {
      Inv(orig, Now())
    }

    method CopyTo(at: nat, bytes: seq<Byte>)
      requires at + |bytes| <= mem.Length
      modifies mem
      ensures mem[..] == Overwrite(old(mem[..]), at, bytes)
    {
      var i := 0;
      while i < |bytes|
        invariant 0 <= i <= |bytes|
        invariant forall k :: 0 <= k < mem.Length ==> mem[k] == if at <= k < at + i then bytes[k - at] else old(mem[k])
      {
        mem[at + i] := bytes[i];
        i := i + 1;
      }
    }

    /** `Stub::set`. The bytes are saved the first time only; on a function that is patched already just the form of
        the jump is noted anew. */
    method Set(fn: nat, stub: nat)
      requires fn + |JumpCode(fn, stub)| <= mem.Length
      modifies this`mResult, this`targets, mem
      ensures mem[..] == Overwrite(old(mem[..]), fn, JumpCode(fn, stub))
      ensures var saved := if fn in old(mResult) then old(mResult)[fn].codeBuf else old(mem[fn..fn + |JumpCode(fn, stub)|]);
        mResult == old(mResult)[fn := FuncStub(saved, DistanceOf(fn, stub))]
      ensures targets == old(targets)[fn := stub]
    {
      var farJmp := DistanceOf(fn, stub);
      CodeLength(fn, stub);
      var codeBuf := if fn in mResult then mResult[fn].codeBuf
                     else if farJmp then mem[fn..fn + CODESIZE_MAX] else mem[fn..fn + CODESIZE_MIN];
      if farJmp {
        CopyTo(fn, FarCode(stub));
      } else {
        CopyTo(fn, NearCode(fn, stub));
      }
      mResult := mResult[fn := FuncStub(codeBuf, farJmp)];
      targets := targets[fn := stub];
    }

    /** `StubExt::reset`, with `Stub::reset` in front. */
    method ResetFunction(fn: nat)
      requires Valid()
      modifies this`mResult, this`mWrappers, this`targets, mem, registry
      ensures WellShaped(old(Now())) && Now() == Reset(old(Now()), fn)
      ensures Valid() && fn !in mResult
    {
      hide Inv;
      ResetKeeps(orig, Now(), fn);
      if fn in mResult {
        CopyTo(fn, mResult[fn].codeBuf);
        mResult := mResult - {fn};
      }
      MapWithout(mResult, fn);
      MapWithout(targets, fn);
      targets := targets - {fn};
      if fn in mWrappers {
        registry.FreeWrapper(mWrappers[fn]);
        mWrappers := mWrappers - {fn};
      }
    }

    /** `set_lamda`: replaces `fn` by the function at `shadow`, which will find `wrapper` in the registry. */
    method SetLamda(fn: nat, shadow: nat, wrapper: nat)
      requires Valid() && Ready(Now(), DoSet(fn, shadow, wrapper))
      modifies this`mResult, this`mWrappers, this`targets, mem, registry
      ensures WellShaped(old(Now())) && Now() == CodePatcher.SetLamda(old(Now()), fn, shadow, wrapper)
      ensures Valid()
    {
      hide Inv, Ready, JumpCode, Reset;
      ghost var s0 := Now();
      SetKeeps(orig, s0, fn, shadow, wrapper);
      ReadyShape(orig, s0, fn, shadow, wrapper);
      if fn in mResult {
        ResetFunction(fn);
      }
      registry.DepictShadow(shadow, wrapper);
      Set(fn, shadow);
      mWrappers := mWrappers[fn := wrapper];
    }

    /** `clear`: every function gets its bytes back, and every wrapper is freed. */
    method ClearAll()
      requires Valid()
      modifies this`mResult, this`mWrappers, this`targets, mem, registry
      ensures WellShaped(old(Now())) && Now() == Clear(old(Now()))
      ensures Valid() && mem[..] == orig && mResult == map[]
    {
      hide Inv;
      ghost var s0 := Now();
      ClearRestores(orig, s0);
      RestoreAll();
      FreeAll();
      mResult := map[];
      mWrappers := map[];
      targets := map[];
    }

    /** The loop of `Stub::clear`. */
    method RestoreAll()
      requires Valid()
      modifies mem
      ensures mem[..] == orig
    {
      hide Inv, RestoredExcept, Overwrite, JumpCode;
      InvParts(orig, Now());
      var todo := mResult.Keys;
      while todo != {}
        invariant todo <= mResult.Keys
        invariant RestoredExcept(orig, mem[..], mResult, todo)
        decreases todo
      {
        var fn :| fn in todo;
        ghost var before := mem[..];
        CopyTo(fn, mResult[fn].codeBuf);
        RestoreStep(orig, before, mResult, todo, fn);
        todo := todo - {fn};
      }
      NothingLeft(orig, mem[..], mResult);
    }

    /** The loop of `StubExt::clear`. */
    method FreeAll()
      modifies registry
      ensures registry.stubWrappers == map id | id in old(registry.stubWrappers)
                && old(registry.stubWrappers)[id] !in mWrappers.Values :: old(registry.stubWrappers)[id]
      ensures registry.live == old(registry.live) - mWrappers.Values
    {
      var todo := mWrappers.Keys;
      ghost var freed: set<nat> := {};
      while todo != {}
        invariant todo <= mWrappers.Keys
        invariant forall w :: w in freed <==> exists fn :: fn in mWrappers && fn !in todo && mWrappers[fn] == w
        invariant registry.stubWrappers == map id | id in old(registry.stubWrappers)
                    && old(registry.stubWrappers)[id] !in freed :: old(registry.stubWrappers)[id]
        invariant registry.live == old(registry.live) - freed
        decreases todo
      {
        var fn :| fn in todo;
        registry.FreeWrapper(mWrappers[fn]);
        todo := todo - {fn};
        freed := freed + {mWrappers[fn]};
      }
      assert freed == mWrappers.Values;
    }
  }

  /** Byte `i` belongs to a window of one of the functions in `some`. */
  ghost predicate PatchedIn(stubs: map<nat, FuncStub>, some: set<nat>, i: nat) {
    exists fn :: fn in some && fn in stubs && InWindow(stubs, fn, i)
  }

  lemma PatchedInWithout(stubs: map<nat, FuncStub>, some: set<nat>, fn: nat, i: nat)
    requires fn in some && fn in stubs
    ensures PatchedIn(stubs, some, i) ==> PatchedIn(stubs, some - {fn}, i) || InWindow(stubs, fn, i)
  {
    if PatchedIn(stubs, some, i) && !InWindow(stubs, fn, i) {
      var g :| g in some && g in stubs && InWindow(stubs, g, i);
      assert g in some - {fn};
    }
  }

  /** Outside the windows of the functions in `todo` the memory is the original one. */
  ghost predicate RestoredExcept(orig: seq<Byte>, mem: seq<Byte>, stubs: map<nat, FuncStub>, todo: set<nat>) {
    |mem| == |orig| && forall i :: 0 <= i < |mem| && !PatchedIn(stubs, todo, i) ==> mem[i] == orig[i]
  }

  lemma RestoreStep(orig: seq<Byte>, mem: seq<Byte>, stubs: map<nat, FuncStub>, todo: set<nat>, fn: nat)
    requires RestoredExcept(orig, mem, stubs, todo) && fn in todo && fn in stubs
    requires fn + Length(stubs[fn]) <= |orig| && stubs[fn].codeBuf == orig[fn..fn + Length(stubs[fn])]
    ensures RestoredExcept(orig, Overwrite(mem, fn, stubs[fn].codeBuf), stubs, todo - {fn})
  {
    hide PatchedIn;
    var mem' := Overwrite(mem, fn, stubs[fn].codeBuf);
    forall i | 0 <= i < |mem'| && !PatchedIn(stubs, todo - {fn}, i) ensures mem'[i] == orig[i] {
      PatchedInWithout(stubs, todo, fn, i);
    }
  }

  lemma NothingLeft(orig: seq<Byte>, mem: seq<Byte>, stubs: map<nat, FuncStub>)
    requires RestoredExcept(orig, mem, stubs, {})
    ensures mem == orig
  {
    assert forall i :: 0 <= i < |mem| ==> !PatchedIn(stubs, {}, i);
  }

  lemma InvParts(orig: seq<Byte>, s: State)
    requires Inv(orig, s)
    ensures |s.mem| == |orig|
    ensures forall fn :: fn in s.stubs ==>
      fn + Length(s.stubs[fn]) <= |orig| && s.stubs[fn].codeBuf == orig[fn..fn + Length(s.stubs[fn])]
    ensures RestoredExcept(orig, s.mem, s.stubs, s.stubs.Keys)
  {
    forall i | 0 <= i < |s.mem| && Patched(s.stubs, i) ensures PatchedIn(s.stubs, s.stubs.Keys, i) {
      var fn :| fn in s.stubs && InWindow(s.stubs, fn, i);
      assert fn in s.stubs.Keys;
    }
  }

  lemma MapWithout<V>(m: map<nat, V>, k: nat)
    ensures k !in m ==> m - {k} == m
  {
  }

  lemma ReadyShape(orig: seq<Byte>, s: State, fn: nat, shadow: nat, w: nat)
    requires Inv(orig, s) && Ready(s, DoSet(fn, shadow, w))
    ensures WellShaped(s) && fn + |JumpCode(fn, shadow)| <= |s.mem|
    ensures var s1 := if fn in s.stubs then Reset(s, fn) else s;
      shadow !in s1.registry && w !in s1.live && fn !in s1.stubs && |s1.mem| == |s.mem|
  {
    hide JumpCode;
    InvIsWellShaped(orig, s);
    StillReady(s, fn, shadow, w);
  }
}
