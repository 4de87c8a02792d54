/** Looking a symbol up by name: through the System V hash table, and by scanning the symbol table. */
module SymbolHash {
  import opened Words
  import opened Bytes
  import opened StringTable
  import opened HashFunction

  // ---------------------------------------------------------------- the table

  /** The names of the symbols, None where the string table has no such position. */
  type Names = seq<Option<seq<Byte>>>

  datatype HashTable = HashTable(buckets: seq<nat>, chains: seq<nat>)

  function BucketOf(t: HashTable, name: seq<Byte>): nat
    requires |t.buckets| > 0
  {
    t.buckets[HashFrom(0, CString(name)) % |t.buckets|]
  }

  /** Every link leads to a symbol, and following links comes to an end: `rank` bounds the way that is left. */
  ghost predicate Linked(t: HashTable, n: nat, rank: seq<nat>) {
    && |t.buckets| > 0 && |t.chains| == |rank| == n
    && (forall b :: 0 <= b < |t.buckets| ==> t.buckets[b] < n)
    && (forall y :: 0 <= y < n ==> t.chains[y] < n)
    && (forall y :: 0 < y < n && t.chains[y] != 0 ==> rank[t.chains[y]] < rank[y])
  }

  /** Symbol `i` is met on the way from `y`. */
  ghost predicate OnChain(t: HashTable, n: nat, rank: seq<nat>, y: nat, i: nat)
    requires Linked(t, n, rank) && y < n
    decreases if y == 0 then 0 else rank[y] + 1
  {
    y != 0 && (y == i || OnChain(t, n, rank, t.chains[y], i))
  }

  /** A hash table over these symbols: symbol 0 has the empty name, and every other named symbol is on the chain
      of its hash value. */
  ghost predicate WellFormed(names: Names, t: HashTable, rank: seq<nat>) {
    && |names| > 0 && names[0] == Some([])
    && Linked(t, |names|, rank)
    && (forall i :: 0 < i < |names| && names[i].Some? && names[i].value != [] ==>
          0 !in names[i].value && OnChain(t, |names|, rank, BucketOf(t, names[i].value), i))
  }

  /** The name buffer after asking for symbol `y`: unchanged when the name cannot be read. */
  function Asked(names: Names, y: nat, str: seq<Byte>): seq<Byte> {
    if y < |names| && names[y].Some? then names[y].value else str
  }

  /** Where the walk from `y` ends when the buffer holds `str`: at a symbol whose name fills the buffer with `name`, or nowhere. */
  ghost function Walk(names: Names, t: HashTable, rank: seq<nat>, name: seq<Byte>, y: nat, str: seq<Byte>): Option<nat>
    requires Linked(t, |names|, rank) && y < |names|
    decreases if y == 0 then 0 else rank[y] + 1
  {
    if str == name then Some(y)
    else if y == 0 then None
    else Walk(names, t, rank, name, t.chains[y], Asked(names, t.chains[y], str))
  }

  ghost function HashedIndex(names: Names, t: HashTable, rank: seq<nat>, name: seq<Byte>): Option<nat>
    requires Linked(t, |names|, rank)
  {
    Walk(names, t, rank, name, BucketOf(t, name), Asked(names, BucketOf(t, name), []))
  }

  function ScannedIndex(names: Names, name: seq<Byte>, i: nat): Option<nat>
    decreases |names| - i
  {
    if i >= |names| then None
    else if Asked(names, i, []) == name then Some(i)
    else ScannedIndex(names, name, i + 1)
  }

  /** `get_symbol` through the hash table. */
  method HashedLookup(names: Names, t: HashTable, name: seq<Byte>, ghost rank: seq<nat>) returns (found: Option<nat>)
    requires Linked(t, |names|, rank)
    ensures found == HashedIndex(names, t, rank, name)
  {
    hide HashFrom, CString;
    var nchain := |t.chains|;
    var val := ElfHash(name);
    var y: nat := t.buckets[val % |t.buckets|];
    var str := Asked(names, y, []);
    while str != name && y != 0 && y < nchain
      invariant y < |names|
      invariant Walk(names, t, rank, name, y, str) == HashedIndex(names, t, rank, name)
      decreases if y == 0 then 0 else rank[y] + 1
    {
      y := t.chains[y];
      str := Asked(names, y, str);
    }
    found := if str == name then Some(y) else None;
  }

  /** `get_symbol` by scanning. */
  method LinearLookup(names: Names, name: seq<Byte>) returns (found: Option<nat>)
    ensures found == ScannedIndex(names, name, 0)
  {
    var i: nat := 0;
    while i < |names|
      invariant ScannedIndex(names, name, i) == ScannedIndex(names, name, 0)
    {
      var symbolName := Asked(names, i, []);
      if symbolName == name {
        return Some(i);
      }
      i := i + 1;
    }
    found := None;
  }

  /** The walk finds a symbol of that name, and misses none that is on its way. */
  lemma {:induction false} WalkFinds(names: Names, t: HashTable, rank: seq<nat>, name: seq<Byte>, y: nat, str: seq<Byte>)
    requires Linked(t, |names|, rank) && y < |names| && name != []
    requires str == name ==> names[y] == Some(name)
    requires names[y] == Some(name) ==> str == name
    ensures var f := Walk(names, t, rank, name, y, str);
      && (f.Some? ==> f.value < |names| && names[f.value] == Some(name))
      && (forall i :: 0 < i < |names| && names[i] == Some(name) && OnChain(t, |names|, rank, y, i) ==> f.Some?)
    decreases if y == 0 then 0 else rank[y] + 1
  {
    if str != name && y != 0 {
      WalkFinds(names, t, rank, name, t.chains[y], Asked(names, t.chains[y], str));
    }
  }

  lemma {:induction false} ScanFinds(names: Names, name: seq<Byte>, i: nat)
    requires forall k :: 0 <= k < i && k < |names| ==> Asked(names, k, []) != name
    ensures var f := ScannedIndex(names, name, i);
      && (f.Some? ==> f.value < |names| && Asked(names, f.value, []) == name
                      && forall k :: 0 <= k < f.value ==> Asked(names, k, []) != name)
      && (f.None? ==> forall k :: 0 <= k < |names| ==> Asked(names, k, []) != name)
    decreases |names| - i
  {
    if i < |names| && Asked(names, i, []) != name {
      ScanFinds(names, name, i + 1);
    }
  }

  /** Through the table a symbol is found exactly when there is one of that name, and it has that name. */
  lemma HashedIsExact(names: Names, t: HashTable, rank: seq<nat>, name: seq<Byte>)
    requires WellFormed(names, t, rank) && name != []
    ensures var f := HashedIndex(names, t, rank, name);
      && (f.Some? <==> exists i :: 0 <= i < |names| && names[i] == Some(name))
      && (f.Some? ==> f.value < |names| && names[f.value] == Some(name))
  {
    hide HashFrom, CString, OnChain;
    WalkFinds(names, t, rank, name, BucketOf(t, name), Asked(names, BucketOf(t, name), []));
  }

  /** The two ways succeed for the same names; a non-empty name that no two symbols share leads both to the same symbol. */
  lemma LookupsAgree(names: Names, t: HashTable, rank: seq<nat>, name: seq<Byte>)
    requires WellFormed(names, t, rank) && name != []
    ensures HashedIndex(names, t, rank, name).Some? <==> ScannedIndex(names, name, 0).Some?
    ensures (forall i, j :: 0 <= i < j < |names| && names[i] == Some(name) ==> names[j] != Some(name))
      ==> HashedIndex(names, t, rank, name) == ScannedIndex(names, name, 0)
  {
    hide Walk, HashedIndex, Linked, OnChain;
    HashedIsExact(names, t, rank, name);
    ScanFinds(names, name, 0);
    var f := HashedIndex(names, t, rank, name);
    if f.Some? {
      assert Asked(names, f.value, []) == name;
    }
  }

  /** The table was built with the hash in whole numbers: every named symbol other than symbol 0 is on the chain of
      its value. */
  ghost predicate StandardTable(names: Names, t: HashTable, rank: seq<nat>) {
    && |names| > 0 && names[0] == Some([])
    && Linked(t, |names|, rank)
    && (forall i :: 0 < i < |names| && names[i].Some? && names[i].value != [] ==>
          0 !in names[i].value && OnChain(t, |names|, rank, t.buckets[IntegerHash(0, names[i].value) % |t.buckets|], i))
  }

  lemma {:induction false} WholeCString(name: seq<Byte>)
    requires 0 !in name
    ensures CString(name) == name
  {
    if name != [] {
      WholeCString(name[1..]);
    }
  }

  lemma SameBucket(t: HashTable, name: seq<Byte>)
    requires |t.buckets| > 0 && 0 !in name
    ensures BucketOf(t, name) == t.buckets[IntegerHash(0, name) % |t.buckets|]
  {
    hide CString, HashFrom, IntegerHash;
    WholeCString(name);
    HashIsInteger(0, name);
  }

  /** In a table that another program built with this hash, a lookup finds what scanning finds. */
  lemma StandardLookupsAgree(names: Names, t: HashTable, rank: seq<nat>, name: seq<Byte>)
    requires StandardTable(names, t, rank) && name != []
    ensures HashedIndex(names, t, rank, name).Some? <==> exists i :: 0 <= i < |names| && names[i] == Some(name)
    ensures HashedIndex(names, t, rank, name).Some? <==> ScannedIndex(names, name, 0).Some?
    ensures (forall i, j :: 0 <= i < j < |names| && names[i] == Some(name) ==> names[j] != Some(name))
      ==> HashedIndex(names, t, rank, name) == ScannedIndex(names, name, 0)
  {
    hide Walk, HashedIndex, Linked, OnChain, BucketOf, IntegerHash;
    SharesBuckets(t, |names|, rank);
    forall i | 0 < i < |names| && names[i].Some? && names[i].value != []
      ensures 0 !in names[i].value && OnChain(t, |names|, rank, BucketOf(t, names[i].value), i)
    {
      SameBucket(t, names[i].value);
    }
    HashedIsExact(names, t, rank, name);
    LookupsAgree(names, t, rank, name);
  }

  lemma SharesBuckets(t: HashTable, n: nat, rank: seq<nat>)
    requires Linked(t, n, rank)
    ensures |t.buckets| > 0 && forall name :: BucketOf(t, name) < n
  {
    hide HashFrom, CString;
  }

  /** The empty name is found both ways, but not always at the same symbol: the walk stops at once at a symbol whose
      name cannot be read. */
  lemma EmptyNameSucceeds(names: Names, t: HashTable, rank: seq<nat>)
    requires WellFormed(names, t, rank)
    ensures HashedIndex(names, t, rank, []).Some? && ScannedIndex(names, [], 0) == Some(0)
  {
    hide HashFrom, CString, OnChain;
    WalkToEmpty(names, t, rank, BucketOf(t, []), Asked(names, BucketOf(t, []), []));
  }

  lemma {:induction false} WalkToEmpty(names: Names, t: HashTable, rank: seq<nat>, y: nat, str: seq<Byte>)
    requires Linked(t, |names|, rank) && y < |names| && names[0] == Some([])
    requires y == 0 ==> str == []
    ensures Walk(names, t, rank, [], y, str).Some?
    decreases if y == 0 then 0 else rank[y] + 1
  {
    if str != [] && y != 0 {
      WalkToEmpty(names, t, rank, t.chains[y], Asked(names, t.chains[y], str));
    }
  }
}
