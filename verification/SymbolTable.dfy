/** Symbol tables and the relocations that refer into them: `arrange_local_symbols` moves the local symbols in
    front, and `swap_symbols` lets every relocation follow its symbol. */
module SymbolTable {
  import opened Words

  const STB_LOCAL := 0

  /** A symbol table entry; `info` is one byte. */
  datatype Sym = Sym(name: nat, value: Word64, size: Word64, info: nat, other: nat, shndx: nat)

  function Bind(s: Sym): nat { s.info / 16 }

  predicate IsLocal(s: Sym) { Bind(s) == STB_LOCAL }

  /** ELF_ST_INFO. */
  function StInfo(bind: nat, stype: nat): nat { bind * 16 + stype % 16 }

  /** On the stored byte: a symbol is local if and only if its value is below 16, and one built from binding and type
      is local if and only if the binding is 0. */
  lemma LocalExactly(s: Sym, bind: nat, stype: nat)
    ensures IsLocal(s) <==> s.info < 16
    ensures IsLocal(s.(info := StInfo(bind, stype))) <==> bind == 0
    ensures stype < 16 ==> StInfo(bind, stype) == 16 * bind + stype
  {
  }

  /** A relocation entry as stored: `info` packs the symbol index and the relocation type. */
  datatype Rel = Rel(offset: Word64, info: Word64, addend: int)

  /** ELF32_R_SYM and ELF64_R_SYM. */
  function RSym(wide: bool, info: Word64): nat { if wide then info / W32 else info / 256 }

  function RType(wide: bool, info: Word64): nat { if wide then info % W32 else info % 256 }

  /** ELF32_R_INFO and ELF64_R_INFO, stored into the field of the class. */
  function RInfo(wide: bool, sym: nat, rtype: nat): Word64 {
    if wide then (sym * W32 + rtype % W32) % W64 else (sym * 256 + rtype % 256) % W32
  }

  /** One more than the largest symbol index that `r_info` can hold. */
  function MaxSymbols(wide: bool): nat { if wide then W32 else 0x100_0000 }

  predicate InfoFits(wide: bool, info: Word64) { info < Modulus(wide) }

  /** Packing is undone by unpacking exactly for symbol indices that fit. */
  lemma RInfoRoundTrip(wide: bool, sym: nat, rtype: nat)
    requires rtype < if wide then W32 else 256
    ensures InfoFits(wide, RInfo(wide, sym, rtype)) && RType(wide, RInfo(wide, sym, rtype)) == rtype
    ensures RSym(wide, RInfo(wide, sym, rtype)) == sym <==> sym < MaxSymbols(wide)
  {
    if wide {
      WideRoundTrip(sym, rtype);
    } else {
      NarrowRoundTrip(sym, rtype);
    }
  }

  lemma WideRoundTrip(sym: nat, rtype: nat)
    requires rtype < W32
    ensures RType(true, RInfo(true, sym, rtype)) == rtype && RSym(true, RInfo(true, sym, rtype)) == sym % W32
  {
    WideInfo(sym, rtype);
    Unpack(sym % W32, rtype, W32);
  }

  lemma NarrowRoundTrip(sym: nat, rtype: nat)
    requires rtype < 256
    ensures RType(false, RInfo(false, sym, rtype)) == rtype && RSym(false, RInfo(false, sym, rtype)) == sym % 0x100_0000
  {
    NarrowInfo(sym, rtype);
    Unpack(sym % 0x100_0000, rtype, 256);
  }

  lemma Unpack(s: nat, t: nat, m: int)
    requires t < m && (m == W32 || m == 256)
    ensures (s * m + t) / m == s && (s * m + t) % m == t && t % m == t
  {
  }

  lemma WideInfo(sym: nat, rtype: nat)
    requires rtype < W32
    ensures (sym * W32 + rtype) % W64 == (sym % W32) * W32 + rtype
  {
    var q := sym / W32;
    assert sym * W32 + rtype == q * W64 + (sym % W32) * W32 + rtype;
  }

  lemma NarrowInfo(sym: nat, rtype: nat)
    requires rtype < 256
    ensures (sym * 256 + rtype) % W32 == (sym % 0x100_0000) * 256 + rtype
  {
    var q := sym / 0x100_0000;
    assert sym * 256 + rtype == q * W32 + (sym % 0x100_0000) * 256 + rtype;
  }

  /** How r_info is divided: 32 bits of type below the symbol index in 64-bit files, 8 bits in 32-bit files. */
  lemma RInfoParts(wide: bool, info: Word64, sym: nat, rtype: nat)
    ensures info == RSym(wide, info) * (if wide then 0x1_0000_0000 else 0x100) + RType(wide, info)
    ensures RType(wide, info) < if wide then 0x1_0000_0000 else 0x100
    ensures sym < MaxSymbols(wide) && rtype < (if wide then 0x1_0000_0000 else 0x100) ==>
      RInfo(wide, sym, rtype) == sym * (if wide then 0x1_0000_0000 else 0x100) + rtype
  {
    if wide && rtype < W32 {
      WideInfo(sym, rtype);
    } else if !wide && rtype < 256 {
      NarrowInfo(sym, rtype);
    }
  }

  /** `e` with its symbol index replaced. */
  function WithSym(wide: bool, e: Rel, sym: nat): Rel { e.(info := RInfo(wide, sym, RType(wide, e.info))) }

  /** What swapping symbols `a` and `b` does to one entry. */
  function FollowSwap(wide: bool, e: Rel, a: nat, b: nat): Rel {
    if RSym(wide, e.info) == b then WithSym(wide, e, a)
    else if RSym(wide, e.info) == a then WithSym(wide, e, b)
    else e
  }

  class RelocationSection {
    const wide: bool
    const rela: bool
    const entries: array<Rel>

    constructor (wide: bool, rela: bool, entries: array<Rel>)
      ensures this.wide == wide && this.rela == rela && this.entries == entries
    {
      this.wide, this.rela, this.entries := wide, rela, entries;
    }

    /** Entries without explicit addend have none stored. */
    ghost predicate Valid()
      reads entries
    {
      forall k :: 0 <= k < entries.Length ==> InfoFits(wide, entries[k].info) && (!rela ==> entries[k].addend == 0)
    }

    method GetEntry(index: nat) returns (ok: bool, offset: Word64, symbol: nat, rtype: nat, addend: int)
      ensures ok <==> index < entries.Length
      ensures ok ==> && offset == entries[index].offset
                     && symbol == RSym(wide, entries[index].info) && rtype == RType(wide, entries[index].info)
                     && addend == if rela then entries[index].addend else 0
    {
      if index >= entries.Length {
        return false, 0, 0, 0, 0;
      }
      var e := entries[index];
      return true, e.offset, RSym(wide, e.info), RType(wide, e.info), if rela then e.addend else 0;
    }

    method SetEntry(index: nat, offset: Word64, symbol: nat, rtype: nat, addend: int) returns (ok: bool)
      modifies entries
      ensures ok <==> index < entries.Length
      ensures ok ==> entries[..] == old(entries[..])[index := Rel(offset, RInfo(wide, symbol, rtype),
                                                                if rela then addend else old(entries[index]).addend)]
      ensures !ok ==> entries[..] == old(entries[..])
    {
      if index >= entries.Length {
        return false;
      }
      entries[index] := Rel(offset, RInfo(wide, symbol, rtype), if rela then addend else entries[index].addend);
      ok := true;
    }

    /** Every reference to `first` becomes one to `second`, and the other way round. */
    method SwapSymbols(first: nat, second: nat)
      requires Valid()
      modifies entries
      ensures Valid()
      ensures forall k :: 0 <= k < entries.Length ==> entries[k] == FollowSwap(wide, old(entries[k]), first, second)
    {
      hide RInfo, RSym, RType, InfoFits;
      var i := 0;
      while i < entries.Length
        invariant 0 <= i <= entries.Length && Valid()
        invariant forall k :: 0 <= k < i ==> entries[k] == FollowSwap(wide, old(entries[k]), first, second)
        invariant forall k :: i <= k < entries.Length ==> entries[k] == old(entries[k])
      {
        ghost var e := entries[i];
        var _, offset, symbol, rtype, addend := GetEntry(i);
        TypeRange(wide, e.info);
        RInfoRoundTrip(wide, first, rtype);
        RInfoRoundTrip(wide, second, rtype);
        if symbol == first {
          var _ := SetEntry(i, offset, second, rtype, addend);
        }
        if symbol == second {
          var _ := SetEntry(i, offset, first, rtype, addend);
        }
        assert entries[i] == FollowSwap(wide, e, first, second);
        i := i + 1;
      }
    }
  }

  lemma TypeRange(wide: bool, info: Word64)
    ensures RType(wide, info) < if wide then W32 else 256
  {
  }

  // ---------------------------------------------------------------- the symbol table

  /** The symbols that the entry refers to before and after are the same, and nothing else of it changed. */
  ghost predicate Follows(wide: bool, syms0: seq<Sym>, syms: seq<Sym>, e0: Rel, e: Rel) {
    && e.offset == e0.offset && e.addend == e0.addend && RType(wide, e.info) == RType(wide, e0.info)
    && |syms| == |syms0|
    && (RSym(wide, e0.info) < |syms0| ==>
          RSym(wide, e.info) < |syms| && syms[RSym(wide, e.info)] == syms0[RSym(wide, e0.info)])
    && (RSym(wide, e0.info) >= |syms0| ==> e == e0)
  }

  /** Swapping two symbols and letting the entry follow keeps what it refers to. */
  lemma FollowSwapFollows(wide: bool, syms0: seq<Sym>, syms: seq<Sym>, e0: Rel, e: Rel, a: nat, b: nat)
    requires Follows(wide, syms0, syms, e0, e) && a < |syms| && b < |syms| && |syms| <= MaxSymbols(wide)
    ensures Follows(wide, syms0, syms[a := syms[b]][b := syms[a]], e0, FollowSwap(wide, e, a, b))
  {
    TypeRange(wide, e.info);
    RInfoRoundTrip(wide, a, RType(wide, e.info));
    RInfoRoundTrip(wide, b, RType(wide, e.info));
    hide RInfo, RSym, RType;
  }

  ghost predicate AllFollow(wide: bool, syms0: seq<Sym>, syms: seq<Sym>, entries0: seq<Rel>, entries: seq<Rel>) {
    |entries| == |entries0| && forall k :: 0 <= k < |entries| ==> Follows(wide, syms0, syms, entries0[k], entries[k])
  }

  function Exchanged(syms: seq<Sym>, a: nat, b: nat): seq<Sym>
    requires a < |syms| && b < |syms|
  {
    syms[a := syms[b]][b := syms[a]]
  }

  /** One swap, with all entries following, keeps what they refer to. */
  lemma AllFollowSwap(wide: bool, syms0: seq<Sym>, syms: seq<Sym>, entries0: seq<Rel>, entries: seq<Rel>, entries': seq<Rel>,
                      a: nat, b: nat)
    requires AllFollow(wide, syms0, syms, entries0, entries)
    requires a < |syms| && b < |syms| && |syms| <= MaxSymbols(wide)
    requires |entries'| == |entries| && forall k :: 0 <= k < |entries| ==> entries'[k] == FollowSwap(wide, entries[k], a, b)
    ensures AllFollow(wide, syms0, Exchanged(syms, a, b), entries0, entries')
  {
    forall k | 0 <= k < |entries| ensures Follows(wide, syms0, Exchanged(syms, a, b), entries0[k], entries'[k]) {
      FollowSwapFollows(wide, syms0, syms, entries0[k], entries[k], a, b);
    }
  }

  /** Entry 0 stays; the local symbols come next, and `split` is the first index that is not local. */
  ghost predicate Partitioned(syms: seq<Sym>, split: nat) {
    && 1 <= split
    && (forall k :: 1 <= k < split && k < |syms| ==> IsLocal(syms[k]))
    && (forall k :: split <= k < |syms| ==> !IsLocal(syms[k]))
    && split <= if |syms| == 0 then 1 else |syms|
  }

  /** `syms` is `syms0` with the entries behind entry 0 rearranged. */
  ghost predicate Rearranged(syms0: seq<Sym>, syms: seq<Sym>) {
    |syms| == |syms0| && (|syms| > 0 ==> syms[0] == syms0[0] && multiset(syms[1..]) == multiset(syms0[1..]))
  }

  lemma ExchangeRearranges(syms0: seq<Sym>, s: seq<Sym>, a: nat, b: nat)
    requires Rearranged(syms0, s) && 1 <= a < b < |s|
    ensures Rearranged(syms0, Exchanged(s, a, b))
  {
    assert Exchanged(s, a, b)[1..] == s[1..][a - 1 := s[1..][b - 1]][b - 1 := s[1..][a - 1]];
  }

  class SymbolSection {
    const syms: array<Sym>
    var info: nat

    constructor (syms: array<Sym>)
      ensures this.syms == syms && info == 0
    {
      this.syms, info := syms, 0;
    }

    ghost predicate Listener(func: RelocationSection?)
      reads func, if func != null then {func.entries} else {}
    {
      func != null ==> func.Valid() && syms.Length <= MaxSymbols(func.wide) && func.entries as object != syms
    }

    /** Tells `func` about the swap and swaps. */
    method SwapEntries(a: nat, b: nat, func: RelocationSection?)
      requires Listener(func) && 1 <= a < b < syms.Length
      modifies syms, if func != null then {func.entries} else {}
      ensures Listener(func)
      ensures syms[..] == Exchanged(old(syms[..]), a, b)
      ensures func != null ==> forall k :: 0 <= k < func.entries.Length ==>
        func.entries[k] == FollowSwap(func.wide, old(func.entries[k]), a, b)
    {
      if func != null {
        func.SwapSymbols(a, b);
      }
      var tmp := syms[a];
      syms[a] := syms[b];
      syms[b] := tmp;
    }

    /** The first symbol from `from` on that is not local, or the end of the table. */
    method SkipLocal(from: nat) returns (i: nat)
      ensures from <= i && (i < syms.Length ==> !IsLocal(syms[i])) && (i > from ==> i <= syms.Length)
      ensures forall k :: from <= k < i && k < syms.Length ==> IsLocal(syms[k])
    {
      i := from;
      while i < syms.Length
        invariant from <= i && (i > from ==> i <= syms.Length)
        invariant forall k :: from <= k < i && k < syms.Length ==> IsLocal(syms[k])
      {
        if Bind(syms[i]) != STB_LOCAL {
          break;
        }
        i := i + 1;
      }
    }

    /** The first local symbol from `from` on, or the end of the table. */
    method FindLocal(from: nat) returns (i: nat)
      ensures from <= i && (i < syms.Length ==> IsLocal(syms[i]))
      ensures forall k :: from <= k < i && k < syms.Length ==> !IsLocal(syms[k])
    {
      i := from;
      while i < syms.Length
        invariant from <= i
        invariant forall k :: from <= k < i && k < syms.Length ==> !IsLocal(syms[k])
      {
        if Bind(syms[i]) == STB_LOCAL {
          break;
        }
        i := i + 1;
      }
    }

    /** Between two swaps: the symbols before `split` are local, the table is a rearrangement of `syms0`, and
        every relocation entry still refers to the symbol it referred to. */
    ghost predicate Arranging(syms0: seq<Sym>, entries0: seq<Rel>, split: nat, func: RelocationSection?)
      reads syms, func, if func != null then {func.entries} else {}
    {
      && 1 <= split && split <= (if syms.Length == 0 then 1 else syms.Length)
      && (forall k :: 1 <= k < split && k < syms.Length ==> IsLocal(syms[k]))
      && Rearranged(syms0, syms[..])
      && Listener(func)
      && (func != null ==> AllFollow(func.wide, syms0, syms[..], entries0, func.entries[..]))
    }

    /** One round: skips local symbols, looks for a local one behind, and swaps the two. */
    method SwapOnce(firstNotLocal: nat, func: RelocationSection?, ghost syms0: seq<Sym>, ghost entries0: seq<Rel>)
      returns (split: nat, swapped: bool)
      requires Arranging(syms0, entries0, firstNotLocal, func)
      modifies syms, if func != null then {func.entries} else {}
      ensures Arranging(syms0, entries0, split, func)
      ensures swapped ==> firstNotLocal <= split < syms.Length && IsLocal(syms[split])
      ensures swapped && split == firstNotLocal ==> !IsLocal(old(syms[split]))
      ensures !swapped ==> Partitioned(syms[..], split)
    {
      hide Follows, FollowSwap, MaxSymbols, Rearranged, AllFollow;
      split := SkipLocal(firstNotLocal);
      var current := FindLocal(split + 1);
      swapped := split < syms.Length && current < syms.Length;
      if swapped {
        ghost var before, entries := syms[..], if func != null then func.entries[..] else [];
        SwapEntries(split, current, func);
        ExchangeRearranges(syms0, before, split, current);
        if func != null {
          AllFollowSwap(func.wide, syms0, before, entries0, entries, func.entries[..], split, current);
        }
      }
    }

    /** Moves the local symbols in front of all others. `func`, when given, is told of every swap before it happens. */
    method ArrangeLocalSymbols(func: RelocationSection?) returns (firstNotLocal: nat)
      requires Listener(func)
      modifies this`info, syms, if func != null then {func.entries} else {}
      ensures Listener(func)
      ensures Partitioned(syms[..], firstNotLocal) && info == firstNotLocal
      ensures forall k :: 1 <= k < firstNotLocal && k < syms.Length ==> syms[k].info < 16
      ensures forall k :: firstNotLocal <= k < syms.Length ==> syms[k].info >= 16
      ensures Rearranged(old(syms[..]), syms[..])
      ensures func != null ==>
        AllFollow(func.wide, old(syms[..]), syms[..], old(func.entries[..]), func.entries[..])
    {
      ghost var syms0, entries0 := syms[..], if func != null then func.entries[..] else [];
      firstNotLocal := 1;
      var swapped := true;
      while swapped
        invariant Arranging(syms0, entries0, firstNotLocal, func)
        invariant !swapped ==> Partitioned(syms[..], firstNotLocal)
        decreases swapped, syms.Length - firstNotLocal, if firstNotLocal < syms.Length && IsLocal(syms[firstNotLocal]) then 0 else 1
      {
        firstNotLocal, swapped := SwapOnce(firstNotLocal, func, syms0, entries0);
      }
      info := firstNotLocal;
    }
  }
}
