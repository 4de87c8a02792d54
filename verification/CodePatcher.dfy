/** Replacing functions at run time: `Stub` overwrites the first bytes of a function with a jump and keeps the old
    bytes, `StubExt` binds every replacement to a wrapper that a global registry finds by the jump's target. */
module CodePatcher {
  import opened Words
  import opened Bytes

  const CODESIZE_MIN := 5
  const CODESIZE_MAX := 13

  // ---------------------------------------------------------------- jump code

  /** `distanceof`: is the replacement too far away for the short jump? */
  predicate DistanceOf(addr: nat, stub: nat) {
    var diff := if stub >= addr then stub - addr else addr - stub;
    diff / 0x8000_0000 - 1 > 0
  }

  function FarCode(stub: nat): (c: seq<Byte>)
    ensures |c| == CODESIZE_MAX
  {
    [0x49, 0xbb] + LittleEndian(8, stub % W64) + [0x41, 0xff, 0xe3]
  }

  function NearCode(fn: nat, stub: nat): (c: seq<Byte>)
    ensures |c| == CODESIZE_MIN
  {
    [0xE9] + LittleEndian(4, (stub - fn - CODESIZE_MIN) % W32)
  }

  function JumpCode(fn: nat, stub: nat): seq<Byte> {
    if DistanceOf(fn, stub) then FarCode(stub) else NearCode(fn, stub)
  }

  function Signed32(v: nat): int { if v < 0x8000_0000 then v else v - W32 }

  /** Where the processor goes from the code at `fn`: the two jump forms. */
  function JumpTarget(fn: nat, code: seq<Byte>): Option<int> {
    if |code| >= 5 && code[0] == 0xE9 then Some(fn + 5 + Signed32(Value(code[1..5])))
    else if |code| >= 13 && code[..2] == [0x49, 0xbb] && code[10..13] == [0x41, 0xff, 0xe3] then Some(Value(code[2..10]))
    else None
  }

  /** The patched function jumps to its replacement, unless the short jump is used beyond its reach of 2^31 bytes:
      the test for the long form only looks for a distance of 2^32. */
  lemma JumpReachesExactly(fn: nat, stub: nat)
    requires stub < W64
    ensures JumpTarget(fn, JumpCode(fn, stub)) == Some(stub)
            <==> stub - fn >= 0x1_0000_0000 || fn - stub >= 0x1_0000_0000 || -0x8000_0000 <= stub - fn - 5 < 0x8000_0000
  {
    hide JumpTarget, FarCode, NearCode, DistanceOf;
    LongFormExactly(fn, stub);
    if DistanceOf(fn, stub) {
      FarTarget(fn, stub);
    } else {
      NearTarget(fn, stub);
      NearReach(fn, stub);
    }
  }

  /** A replacement gets the long form, of 13 bytes, if and only if it is 2^32 or more bytes away; the short form has 5. */
  lemma LongFormExactly(fn: nat, stub: nat)
    ensures |JumpCode(fn, stub)| == if stub - fn >= 0x1_0000_0000 || fn - stub >= 0x1_0000_0000 then 13 else 5
    ensures DistanceOf(fn, stub) <==> |JumpCode(fn, stub)| == 13
  {
  }

  lemma FarTarget(fn: nat, stub: nat)
    requires stub < W64
    ensures JumpTarget(fn, FarCode(stub)) == Some(stub)
  {
    hide LittleEndian, Value;
    Pow256Values();
    ReadWritten(8, stub);
    var c := FarCode(stub);
    assert c[..2] == [0x49, 0xbb] && c[2..10] == LittleEndian(8, stub) && c[10..13] == [0x41, 0xff, 0xe3];
  }

  lemma NearTarget(fn: nat, stub: nat)
    ensures JumpTarget(fn, NearCode(fn, stub)) == Some(fn + 5 + Signed32((stub - fn - 5) % W32))
  {
    hide LittleEndian, Value;
    Pow256Values();
    var rel := (stub - fn - CODESIZE_MIN) % W32;
    ReadWritten(4, rel);
    assert NearCode(fn, stub)[1..5] == LittleEndian(4, rel);
  }

  lemma NearReach(fn: nat, stub: nat)
    requires !DistanceOf(fn, stub)
    ensures fn + 5 + Signed32((stub - fn - 5) % W32) == stub <==> -0x8000_0000 <= stub - fn - 5 < 0x8000_0000
  {
    var d := stub - fn - 5;
    assert -W32 - 5 <= d < W32;
    if 0 <= d {
      assert d % W32 == d;
    } else if -W32 <= d {
      assert d % W32 == d + W32;
    } else {
      assert d % W32 == d + 2 * W32;
    }
  }

  /** A replacement 3 GiB away: the jump misses it. */
  lemma JumpCanMiss(fn: nat)
    requires fn < W32
    ensures JumpTarget(fn, JumpCode(fn, fn + 0xC000_0000)) != Some(fn + 0xC000_0000)
  {
    JumpReachesExactly(fn, fn + 0xC000_0000);
  }

  // ---------------------------------------------------------------- state

  /** A saved function start: the bytes that the patch replaced. */
  datatype FuncStub = FuncStub(codeBuf: seq<Byte>, farJmp: bool)

  function Length(st: FuncStub): nat { if st.farJmp then CODESIZE_MAX else CODESIZE_MIN }

  /** Wrappers are named by numbers; `live` are those not deleted yet. `targets` remembers where each patch jumps to. */
  datatype State = State(mem: seq<Byte>, stubs: map<nat, FuncStub>, wrappers: map<nat, nat>, targets: map<nat, nat>,
                         registry: map<nat, nat>, live: set<nat>)

  function Overwrite(mem: seq<Byte>, at: nat, b: seq<Byte>): (r: seq<Byte>)
    requires at + |b| <= |mem|
    ensures |r| == |mem|
    ensures forall i :: 0 <= i < |mem| ==> r[i] == if at <= i < at + |b| then b[i - at] else mem[i]
  {
    mem[..at] + b + mem[at + |b|..]
  }

  predicate InWindow(stubs: map<nat, FuncStub>, fn: nat, i: nat)
    requires fn in stubs
  {
    fn <= i < fn + Length(stubs[fn])
  }

  ghost predicate Patched(stubs: map<nat, FuncStub>, i: nat) {
    exists fn :: fn in stubs && InWindow(stubs, fn, i)
  }

  ghost predicate WindowsApart(stubs: map<nat, FuncStub>) {
    forall f, g :: f in stubs && g in stubs && f < g ==> f + Length(stubs[f]) <= g
  }

  ghost predicate WindowsSaved(orig: seq<Byte>, stubs: map<nat, FuncStub>) {
    forall fn :: fn in stubs ==>
      && fn + Length(stubs[fn]) <= |orig|
      && stubs[fn].codeBuf == orig[fn..fn + Length(stubs[fn])]
  }

  ghost predicate OutsideUntouched(orig: seq<Byte>, mem: seq<Byte>, stubs: map<nat, FuncStub>) {
    |mem| == |orig| && forall i :: 0 <= i < |mem| && !Patched(stubs, i) ==> mem[i] == orig[i]
  }

  /** Every patched function starts with the jump to its replacement. */
  ghost predicate JumpsInPlace(s: State) {
    s.targets.Keys == s.stubs.Keys
    && forall fn :: fn in s.stubs && fn + Length(s.stubs[fn]) <= |s.mem| ==>
      && s.stubs[fn].farJmp == DistanceOf(fn, s.targets[fn])
      && s.mem[fn..fn + Length(s.stubs[fn])] == JumpCode(fn, s.targets[fn])
  }

  /** The registry only refers to wrappers that exist, and finds the wrapper of every patched function at the
      target of its jump. */
  ghost predicate WrappersAlive(s: State) {
    && s.wrappers.Keys == s.stubs.Keys == s.targets.Keys
    && (forall id :: id in s.registry ==> s.registry[id] in s.live)
    && (forall fn :: fn in s.wrappers ==>
          && s.wrappers[fn] in s.live
          && s.targets[fn] in s.registry && s.registry[s.targets[fn]] == s.wrappers[fn])
    && (forall f, g :: f in s.wrappers && g in s.wrappers && f != g ==> s.wrappers[f] != s.wrappers[g])
  }

  ghost predicate Inv(orig: seq<Byte>, s: State) {
    && WindowsApart(s.stubs)
    && WindowsSaved(orig, s.stubs)
    && OutsideUntouched(orig, s.mem, s.stubs)
    && JumpsInPlace(s)
    && WrappersAlive(s)
  }

  // ---------------------------------------------------------------- the operations

  /** `freeWrapper`: no registry entry of the wrapper remains, and it is deleted. */
  function Freed(registry: map<nat, nat>, w: nat): map<nat, nat> {
    map id | id in registry && registry[id] != w :: registry[id]
  }

  ghost predicate WellShaped(s: State) {
    forall fn :: fn in s.stubs ==> fn + Length(s.stubs[fn]) <= |s.mem| && |s.stubs[fn].codeBuf| == Length(s.stubs[fn])
  }

  /** `StubExt::reset`. */
  ghost function Reset(s: State, fn: nat): State
    requires WellShaped(s)
  {
    var mem := if fn in s.stubs then Overwrite(s.mem, fn, s.stubs[fn].codeBuf) else s.mem;
    var s1 := s.(mem := mem, stubs := s.stubs - {fn}, targets := s.targets - {fn});
    if fn in s.wrappers then
      s1.(registry := Freed(s.registry, s.wrappers[fn]), live := s.live - {s.wrappers[fn]}, wrappers := s.wrappers - {fn})
    else s1
  }

  /** `Stub::set` on a function that is not patched, and the bookkeeping around it; `w` is the new wrapper. */
  ghost function Patch(s: State, fn: nat, shadow: nat, w: nat): State
    requires fn + |JumpCode(fn, shadow)| <= |s.mem|
  {
    var code := JumpCode(fn, shadow);
    s.(mem := Overwrite(s.mem, fn, code),
       stubs := s.stubs[fn := FuncStub(s.mem[fn..fn + |code|], DistanceOf(fn, shadow))],
       targets := s.targets[fn := shadow],
       registry := s.registry[shadow := w],
       live := s.live + {w},
       wrappers := s.wrappers[fn := w])
  }

  /** `StubExt::set_lamda`: an earlier replacement of the same function is undone first. */
  ghost function SetLamda(s: State, fn: nat, shadow: nat, w: nat): State
    requires WellShaped(s) && fn + |JumpCode(fn, shadow)| <= |s.mem|
  {
    Patch(if fn in s.stubs then Reset(s, fn) else s, fn, shadow, w)
  }

  ghost function SavedByte(s: State, i: nat): Byte
    requires WellShaped(s) && i < |s.mem|
  {
    if Patched(s.stubs, i) then
      var fn :| fn in s.stubs && InWindow(s.stubs, fn, i);
      s.stubs[fn].codeBuf[i - fn]
    else s.mem[i]
  }

  /** `StubExt::clear`. */
  ghost function Clear(s: State): State
    requires WellShaped(s)
  {
    State(seq(|s.mem|, i requires 0 <= i < |s.mem| => SavedByte(s, i)), map[], map[], map[],
          map id | id in s.registry && s.registry[id] !in s.wrappers.Values :: s.registry[id],
          s.live - s.wrappers.Values)
  }

  datatype Op = DoSet(fn: nat, shadow: nat, wrapper: nat) | DoReset(fn: nat) | DoClear

  /** The window of a new patch lies in memory and meets no window of another function; the replacement is not
      registered for another one; the wrapper is new. */
  ghost predicate Ready(s: State, op: Op) {
    match op
    case DoSet(fn, shadow, w) =>
      && fn + |JumpCode(fn, shadow)| <= |s.mem|
      && (forall g :: g in s.stubs && g != fn ==>
            fn + |JumpCode(fn, shadow)| <= g || g + Length(s.stubs[g]) <= fn)
      && (shadow !in s.registry || (fn in s.wrappers && s.registry[shadow] == s.wrappers[fn]))
      && w !in s.live
    case _ => true
  }

  ghost function Apply(s: State, op: Op): State
    requires WellShaped(s) && Ready(s, op)
  {
    match op
    case DoSet(fn, shadow, w) => SetLamda(s, fn, shadow, w)
    case DoReset(fn) => Reset(s, fn)
    case DoClear => Clear(s)
  }

  // ---------------------------------------------------------------- what every operation keeps

  lemma InvIsWellShaped(orig: seq<Byte>, s: State)
    requires Inv(orig, s)
    ensures WellShaped(s)
  {
  }

  /** Removing one window leaves the others. */
  lemma PatchedWithout(stubs: map<nat, FuncStub>, fn: nat, i: nat)
    requires fn in stubs && Patched(stubs, i) && !InWindow(stubs, fn, i)
    ensures Patched(stubs - {fn}, i)
  {
    var g :| g in stubs && InWindow(stubs, g, i);
    assert g in stubs - {fn} && InWindow(stubs - {fn}, g, i);
  }

  lemma PatchedWith(stubs: map<nat, FuncStub>, fn: nat, st: FuncStub, i: nat)
    requires fn !in stubs
    ensures Patched(stubs[fn := st], i) <==> Patched(stubs, i) || fn <= i < fn + Length(st)
  {
    if Patched(stubs, i) {
      var g :| g in stubs && InWindow(stubs, g, i);
      assert g in stubs[fn := st] && InWindow(stubs[fn := st], g, i);
    }
    if fn <= i < fn + Length(st) {
      assert fn in stubs[fn := st] && InWindow(stubs[fn := st], fn, i);
    }
    if Patched(stubs[fn := st], i) {
      var g :| g in stubs[fn := st] && InWindow(stubs[fn := st], g, i);
      assert g != fn ==> g in stubs && InWindow(stubs, g, i);
    }
  }

  lemma OverwriteElsewhere(mem: seq<Byte>, at: nat, b: seq<Byte>, lo: nat, hi: nat)
    requires at + |b| <= |mem| && lo <= hi <= |mem| && (hi <= at || at + |b| <= lo)
    ensures Overwrite(mem, at, b)[lo..hi] == mem[lo..hi]
  {
  }

  /** Putting the saved bytes back makes the window as it was. */
  lemma ResetMemory(orig: seq<Byte>, s: State, fn: nat)
    requires Inv(orig, s) && fn in s.stubs
    ensures WellShaped(s)
    ensures var s' := Reset(s, fn);
      && WindowsApart(s'.stubs) && WindowsSaved(orig, s'.stubs) && OutsideUntouched(orig, s'.mem, s'.stubs)
  {
    hide JumpsInPlace, WrappersAlive, Freed, JumpCode, Patched;
    var s' := Reset(s, fn);
    forall i | 0 <= i < |s'.mem| && !Patched(s'.stubs, i) ensures s'.mem[i] == orig[i] {
      if !InWindow(s.stubs, fn, i) && Patched(s.stubs, i) {
        PatchedWithout(s.stubs, fn, i);
      }
    }
  }

  lemma JumpKept(s: State, s': State, g: nat)
    requires JumpsInPlace(s) && g in s.stubs && g + Length(s.stubs[g]) <= |s.mem| == |s'.mem|
    requires g in s'.stubs && s'.stubs[g] == s.stubs[g] && g in s'.targets && s'.targets[g] == s.targets[g]
    requires s'.mem[g..g + Length(s.stubs[g])] == s.mem[g..g + Length(s.stubs[g])]
    ensures s'.stubs[g].farJmp == DistanceOf(g, s'.targets[g])
    ensures s'.mem[g..g + Length(s'.stubs[g])] == JumpCode(g, s'.targets[g])
  {
    hide JumpCode, DistanceOf;
  }

  lemma ResetJumps(s: State, fn: nat)
    requires WellShaped(s) && WindowsApart(s.stubs) && JumpsInPlace(s) && fn in s.stubs
    ensures JumpsInPlace(Reset(s, fn))
  {
    hide Freed, JumpCode, DistanceOf, Overwrite, WindowsApart;
    var s' := Reset(s, fn);
    forall g | g in s'.stubs && g + Length(s'.stubs[g]) <= |s'.mem|
      ensures s'.stubs[g].farJmp == DistanceOf(g, s'.targets[g])
      ensures s'.mem[g..g + Length(s'.stubs[g])] == JumpCode(g, s'.targets[g])
    {
      TwoWindows(s.stubs, fn, g);
      OverwriteElsewhere(s.mem, fn, s.stubs[fn].codeBuf, g, g + Length(s.stubs[g]));
      JumpKept(s, s', g);
    }
  }

  lemma TwoWindows(stubs: map<nat, FuncStub>, f: nat, g: nat)
    requires WindowsApart(stubs) && f in stubs && g in stubs && f != g
    ensures f + Length(stubs[f]) <= g || g + Length(stubs[g]) <= f
  {
  }

  lemma ResetWrappers(s: State, fn: nat)
    requires WellShaped(s) && WrappersAlive(s) && fn in s.stubs
    ensures WrappersAlive(Reset(s, fn))
    ensures forall id :: id in Reset(s, fn).registry ==> id in s.registry && s.registry[id] == Reset(s, fn).registry[id]
  {
  }

  lemma ResetKeeps(orig: seq<Byte>, s: State, fn: nat)
    requires Inv(orig, s)
    ensures WellShaped(s) && Inv(orig, Reset(s, fn)) && fn !in Reset(s, fn).stubs
  {
    hide JumpsInPlace, WindowsApart, WindowsSaved, OutsideUntouched;
    InvIsWellShaped(orig, s);
    if fn in s.stubs {
      ResetMemory(orig, s, fn);
      ResetJumps(s, fn);
      ResetWrappers(s, fn);
    } else {
      NothingToReset(s, fn);
    }
  }

  lemma NothingToReset(s: State, fn: nat)
    requires WellShaped(s) && fn !in s.stubs && fn !in s.wrappers && fn !in s.targets
    ensures Reset(s, fn) == s
  {
    assert s.stubs - {fn} == s.stubs && s.targets - {fn} == s.targets;
  }

  // ---------------------------------------------------------------- patching

  lemma PatchMemory(orig: seq<Byte>, s: State, fn: nat, shadow: nat, w: nat)
    requires WindowsApart(s.stubs) && WindowsSaved(orig, s.stubs) && OutsideUntouched(orig, s.mem, s.stubs)
    requires fn !in s.stubs && fn + |JumpCode(fn, shadow)| <= |s.mem|
    requires forall g :: g in s.stubs ==> fn + |JumpCode(fn, shadow)| <= g || g + Length(s.stubs[g]) <= fn
    ensures var s' := Patch(s, fn, shadow, w);
      && WindowsApart(s'.stubs) && WindowsSaved(orig, s'.stubs) && OutsideUntouched(orig, s'.mem, s'.stubs)
  {
    hide FarCode, NearCode, DistanceOf, Patched;
    var s' := Patch(s, fn, shadow, w);
    var st := s'.stubs[fn];
    forall i | 0 <= i < |s.mem|
      ensures fn <= i < fn + Length(st) ==> s.mem[i] == orig[i]
      ensures !Patched(s'.stubs, i) ==> s'.mem[i] == orig[i]
    {
      PatchedWith(s.stubs, fn, st, i);
      if fn <= i < fn + Length(st) {
        WindowIsFree(s.stubs, fn, Length(st), i);
      }
    }
  }

  lemma WindowIsFree(stubs: map<nat, FuncStub>, fn: nat, len: nat, i: nat)
    requires fn !in stubs && fn <= i < fn + len
    requires forall g :: g in stubs ==> fn + len <= g || g + Length(stubs[g]) <= fn
    ensures !Patched(stubs, i)
  {
  }

  lemma PatchJumps(s: State, fn: nat, shadow: nat, w: nat)
    requires JumpsInPlace(s) && WellShaped(s)
    requires fn !in s.stubs && fn + |JumpCode(fn, shadow)| <= |s.mem|
    requires forall g :: g in s.stubs ==> fn + |JumpCode(fn, shadow)| <= g || g + Length(s.stubs[g]) <= fn
    ensures JumpsInPlace(Patch(s, fn, shadow, w))
  {
    hide JumpCode, DistanceOf, Overwrite;
    var code, s' := JumpCode(fn, shadow), Patch(s, fn, shadow, w);
    CodeLength(fn, shadow);
    forall g | g in s'.stubs && g + Length(s'.stubs[g]) <= |s'.mem|
      ensures s'.stubs[g].farJmp == DistanceOf(g, s'.targets[g])
      ensures s'.mem[g..g + Length(s'.stubs[g])] == JumpCode(g, s'.targets[g])
    {
      if g == fn {
        OverwrittenIs(s.mem, fn, code);
      } else {
        OverwriteElsewhere(s.mem, fn, code, g, g + Length(s.stubs[g]));
        JumpKept(s, s', g);
      }
    }
  }

  lemma CodeLength(fn: nat, shadow: nat)
    ensures |JumpCode(fn, shadow)| == if DistanceOf(fn, shadow) then CODESIZE_MAX else CODESIZE_MIN
  {
  }

  lemma OverwrittenIs(mem: seq<Byte>, at: nat, b: seq<Byte>)
    requires at + |b| <= |mem|
    ensures Overwrite(mem, at, b)[at..at + |b|] == b
  {
  }

  lemma PatchWrappers(s: State, fn: nat, shadow: nat, w: nat)
    requires WrappersAlive(s) && fn !in s.stubs && fn + |JumpCode(fn, shadow)| <= |s.mem|
    requires shadow !in s.registry && w !in s.live
    ensures WrappersAlive(Patch(s, fn, shadow, w))
  {
    hide JumpCode;
  }

  lemma SetKeeps(orig: seq<Byte>, s: State, fn: nat, shadow: nat, w: nat)
    requires Inv(orig, s) && Ready(s, DoSet(fn, shadow, w))
    ensures WellShaped(s) && Inv(orig, SetLamda(s, fn, shadow, w))
  {
    hide JumpCode;
    InvIsWellShaped(orig, s);
    var s1 := if fn in s.stubs then Reset(s, fn) else s;
    ResetKeeps(orig, s, fn);
    InvIsWellShaped(orig, s1);
    hide JumpsInPlace, WrappersAlive, WindowsApart, WindowsSaved, OutsideUntouched, WellShaped, Freed;
    StillReady(s, fn, shadow, w);
    PatchMemory(orig, s1, fn, shadow, w);
    PatchJumps(s1, fn, shadow, w);
    PatchWrappers(s1, fn, shadow, w);
  }

  /** Undoing the earlier replacement of `fn` only makes room. */
  lemma StillReady(s: State, fn: nat, shadow: nat, w: nat)
    requires WellShaped(s) && WrappersAlive(s) && Ready(s, DoSet(fn, shadow, w))
    ensures var s1 := if fn in s.stubs then Reset(s, fn) else s;
      && fn !in s1.stubs && |s1.mem| == |s.mem|
      && (forall g :: g in s1.stubs ==> fn + |JumpCode(fn, shadow)| <= g || g + Length(s1.stubs[g]) <= fn)
      && shadow !in s1.registry && w !in s1.live
  {
    hide JumpCode;
  }

  // ---------------------------------------------------------------- clearing

  lemma SavedIsOriginal(orig: seq<Byte>, s: State, i: nat)
    requires WindowsSaved(orig, s.stubs) && OutsideUntouched(orig, s.mem, s.stubs) && WellShaped(s) && i < |s.mem|
    ensures SavedByte(s, i) == orig[i]
  {
  }

  /** Clearing restores the whole memory and deletes every wrapper of this object. */
  lemma ClearRestores(orig: seq<Byte>, s: State)
    requires Inv(orig, s)
    ensures WellShaped(s)
    ensures var s' := Clear(s);
      && s'.mem == orig && s'.stubs == map[] && s'.wrappers == map[]
      && Inv(orig, s')
      && (forall id :: id in s'.registry ==> s'.registry[id] !in s.wrappers.Values)
  {
    hide JumpsInPlace, SavedByte;
    InvIsWellShaped(orig, s);
    forall i | 0 <= i < |s.mem| ensures SavedByte(s, i) == orig[i] {
      SavedIsOriginal(orig, s, i);
    }
    assert Clear(s).mem == orig;
    NothingPatched(orig, Clear(s));
  }

  lemma NothingPatched(orig: seq<Byte>, s: State)
    requires s.mem == orig && s.stubs == map[] && s.targets == map[]
    ensures WindowsApart(s.stubs) && WindowsSaved(orig, s.stubs) && OutsideUntouched(orig, s.mem, s.stubs) && JumpsInPlace(s)
  {
  }

  // ---------------------------------------------------------------- what each operation does

  /** The other replacements stay as they are. */
  ghost predicate OthersStay(s: State, s': State, fn: nat) {
    s'.stubs - {fn} == s.stubs - {fn} && s'.targets - {fn} == s.targets - {fn} && s'.wrappers - {fn} == s.wrappers - {fn}
  }

  /** After a replacement the function starts with the jump to it, and the registry finds the new wrapper there. */
  lemma SetTakesEffect(orig: seq<Byte>, s: State, fn: nat, shadow: nat, w: nat)
    requires Inv(orig, s) && Ready(s, DoSet(fn, shadow, w))
    ensures WellShaped(s)
    ensures var s', code := SetLamda(s, fn, shadow, w), JumpCode(fn, shadow);
      && fn in s'.stubs && fn in s'.targets && s'.targets[fn] == shadow && s'.mem[fn..fn + |code|] == code
      && fn in s'.wrappers && s'.wrappers[fn] == w && shadow in s'.registry && s'.registry[shadow] == w && w in s'.live
      && OthersStay(s, s', fn)
  {
    hide JumpCode, Inv, Ready, Freed, Overwrite;
    InvIsWellShaped(orig, s);
    ReadyFits(s, fn, shadow, w);
    var s1 := if fn in s.stubs then Reset(s, fn) else s;
    OverwrittenIs(s1.mem, fn, JumpCode(fn, shadow));
  }

  lemma ReadyFits(s: State, fn: nat, shadow: nat, w: nat)
    requires Ready(s, DoSet(fn, shadow, w))
    ensures fn + |JumpCode(fn, shadow)| <= |s.mem|
  {
  }

  /** After undoing it the function has its original bytes. */
  lemma ResetTakesEffect(orig: seq<Byte>, s: State, fn: nat)
    requires Inv(orig, s) && fn in s.stubs
    ensures WellShaped(s) && fn + Length(s.stubs[fn]) <= |orig| == |Reset(s, fn).mem|
    ensures fn !in Reset(s, fn).stubs && fn !in Reset(s, fn).wrappers
    ensures Reset(s, fn).mem[fn..fn + Length(s.stubs[fn])] == orig[fn..fn + Length(s.stubs[fn])]
    ensures OthersStay(s, Reset(s, fn), fn)
  {
    hide JumpsInPlace, Freed, Overwrite, OutsideUntouched, WindowsApart;
    InvIsWellShaped(orig, s);
    SameLength(orig, s);
    OverwrittenIs(s.mem, fn, s.stubs[fn].codeBuf);
  }

  lemma SameLength(orig: seq<Byte>, s: State)
    requires Inv(orig, s)
    ensures |s.mem| == |orig|
  {
  }

  /** What other objects registered stays registered, whatever this one does. */
  lemma ForeignWrappersStay(orig: seq<Byte>, s: State, op: Op, id: nat)
    requires Inv(orig, s) && Ready(s, op) && id in s.registry && s.registry[id] !in s.wrappers.Values
    ensures WellShaped(s) && id in Apply(s, op).registry && Apply(s, op).registry[id] == s.registry[id]
    ensures s.registry[id] in Apply(s, op).live
  {
    hide JumpCode, JumpsInPlace, Overwrite;
    InvIsWellShaped(orig, s);
  }

  // ---------------------------------------------------------------- runs

  lemma StepKeeps(orig: seq<Byte>, s: State, op: Op)
    requires Inv(orig, s) && Ready(s, op)
    ensures WellShaped(s) && Inv(orig, Apply(s, op))
  {
    hide Inv, Ready, Reset, SetLamda, Clear;
    InvIsWellShaped(orig, s);
    match op
    case DoSet(fn, shadow, w) => SetKeeps(orig, s, fn, shadow, w);
    case DoReset(fn) => ResetKeeps(orig, s, fn);
    case DoClear => ClearRestores(orig, s);
  }

  /** A run: every operation is applied when it is ready. */
  ghost predicate IsRun(states: seq<State>, ops: seq<Op>) {
    && |states| == |ops| + 1
    && forall k :: 0 <= k < |ops| ==> WellShaped(states[k]) && Ready(states[k], ops[k]) && states[k + 1] == Apply(states[k], ops[k])
  }

  /** Whatever is set, reset and cleared, in any order and number: at every moment each byte outside the patched
      functions has its original value, each saved buffer holds the original bytes under its patch, each patched
      function starts with the jump to its replacement, and the registry finds a living wrapper there. */
  lemma {:induction false} EveryRunKeeps(orig: seq<Byte>, states: seq<State>, ops: seq<Op>, k: nat)
    requires IsRun(states, ops) && Inv(orig, states[0]) && k <= |ops|
    ensures Inv(orig, states[k])
  {
    hide Inv, Ready, Apply, WellShaped;
    if k > 0 {
      EveryRunKeeps(orig, states, ops, k - 1);
      StepKeeps(orig, states[k - 1], ops[k - 1]);
    }
  }

  /** A run that ends with `clear` ends with the original memory, however it went. */
  lemma ClearEndsEveryRun(orig: seq<Byte>, states: seq<State>, ops: seq<Op>)
    requires IsRun(states, ops) && Inv(orig, states[0]) && |ops| > 0 && ops[|ops| - 1] == DoClear
    ensures states[|ops|].mem == orig && states[|ops|].stubs == map[]
  {
    hide Inv, Ready, WellShaped, Clear;
    EveryRunKeeps(orig, states, ops, |ops| - 1);
    ClearRestores(orig, states[|ops| - 1]);
  }
}
