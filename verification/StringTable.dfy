/** String tables: every position that `add_string` ever returned keeps reading back the string added there. */
module StringTable {
  import opened Words
  import opened Bytes
  import SD = SectionData

  /** The C string in front of the first NUL byte, or the whole sequence. */
  function CString(s: seq<Byte>): (r: seq<Byte>)
    ensures 0 !in r && |r| <= |s| && r == s[..|r|]
    ensures |r| < |s| ==> s[|r|] == 0
  {
    if s == [] || s[0] == 0 then [] else [s[0]] + CString(s[1..])
  }

  /** Reading one more byte of a C string. */
  lemma CStringFrom(s: seq<Byte>, i: nat)
    requires i <= |s|
    ensures i < |s| && s[i] != 0 ==> CString(s[i..]) == [s[i]] + CString(s[i + 1..])
    ensures i == |s| || s[i] == 0 ==> CString(s[i..]) == []
  {
    if i < |s| {
      assert s[i..][0] == s[i] && s[i..][1..] == s[i + 1..];
    }
  }

  lemma {:induction false} CStringOfTerminated(s: seq<Byte>, tail: seq<Byte>)
    requires 0 !in s
    ensures CString(s + [0] + tail) == s
  {
    if s == [] {
      assert (s + [0] + tail)[0] == 0;
    } else {
      assert (s + [0] + tail)[1..] == s[1..] + [0] + tail;
      CStringOfTerminated(s[1..], tail);
    }
  }

  /** What `get_string` returns: nothing outside the section, otherwise the C string at `index`. */
  function StringAt(table: seq<Byte>, index: nat): Option<seq<Byte>> {
    if index < |table| then Some(CString(table[index..])) else None
  }

  /** The position that `add_string` uses: behind the data, and never 0. */
  function NextPosition(table: seq<Byte>): nat { if |table| == 0 then 1 else |table| }

  function AddTo(table: seq<Byte>, str: seq<Byte>): seq<Byte> {
    (if |table| == 0 then [0] else table) + CString(str) + [0]
  }

  /** The table after adding the first `n` strings. */
  function Table(start: seq<Byte>, strs: seq<seq<Byte>>, n: nat): seq<Byte>
    requires n <= |strs|
  {
    if n == 0 then start else AddTo(Table(start, strs, n - 1), strs[n - 1])
  }

  function PositionOf(start: seq<Byte>, strs: seq<seq<Byte>>, k: nat): nat
    requires k < |strs|
  {
    NextPosition(Table(start, strs, k))
  }

  /** A string just added is read back. */
  lemma AddedIsRead(table: seq<Byte>, str: seq<Byte>)
    ensures StringAt(AddTo(table, str), NextPosition(table)) == Some(CString(str))
    ensures NextPosition(table) + |CString(str)| < |AddTo(table, str)|
  {
    var base := if |table| == 0 then [0] else table;
    assert AddTo(table, str)[|base|..] == CString(str) + [0] + [];
    CStringOfTerminated(CString(str), []);
  }

  /** A terminated string is not affected by what is added behind it. */
  lemma ReadStays(table: seq<Byte>, str: seq<Byte>, p: nat, s: seq<Byte>)
    requires p + |s| < |table| && StringAt(table, p) == Some(s)
    ensures StringAt(AddTo(table, str), p) == Some(s) && p + |s| < |AddTo(table, str)|
  {
    var more := CString(str) + [0];
    assert table[p..][|s|] == 0;
    var tail := table[p + |s| + 1..];
    assert table[p..] == s + [0] + tail;
    assert AddTo(table, str) == table + more;
    assert AddTo(table, str)[p..] == s + [0] + (tail + more);
    CStringOfTerminated(s, tail + more);
  }

  /** Over any history of additions to any table, every string ever added reads back at its position. */
  lemma {:induction false} EveryStringReadsBack(start: seq<Byte>, strs: seq<seq<Byte>>, n: nat, k: nat)
    requires k < n <= |strs|
    ensures StringAt(Table(start, strs, n), PositionOf(start, strs, k)) == Some(CString(strs[k]))
    ensures PositionOf(start, strs, k) + |CString(strs[k])| < |Table(start, strs, n)|
    ensures PositionOf(start, strs, k) > 0
  {
    if k == n - 1 {
      AddedIsRead(Table(start, strs, k), strs[k]);
    } else {
      EveryStringReadsBack(start, strs, n - 1, k);
      ReadStays(Table(start, strs, n - 1), strs[n - 1], PositionOf(start, strs, k), CString(strs[k]));
    }
  }

  /** Different additions get different positions, in ascending order. */
  lemma {:induction false} PositionsAscend(start: seq<Byte>, strs: seq<seq<Byte>>, j: nat, k: nat)
    requires j < k < |strs|
    ensures PositionOf(start, strs, j) + |CString(strs[j])| < PositionOf(start, strs, k)
    ensures k == j + 1 ==> PositionOf(start, strs, k) == PositionOf(start, strs, j) + |CString(strs[j])| + 1
  {
    EveryStringReadsBack(start, strs, k, j);
  }

  method GetString(section: SD.SectionData, index: nat) returns (r: Option<seq<Byte>>)
    requires section.Valid()
    ensures r == StringAt(section.Contents(), index)
  {
    hide CString;
    if index < section.size {
      var s: seq<Byte> := [];
      ghost var table := section.Contents();
      var i := index;
      CStringFrom(table, i);
      while i < section.size && section.data[i] != 0
        invariant index <= i <= section.size
        invariant CString(table[index..]) == s + CString(table[i..])
      {
        CStringFrom(table, i);
        assert s + ([table[i]] + CString(table[i + 1..])) == (s + [table[i]]) + CString(table[i + 1..]);
        s := s + [section.data[i]];
        i := i + 1;
      }
      CStringFrom(table, i);
      assert s + [] == s;
      return Some(s);
    }
    r := None;
  }

  /** The length of a C string, as `std::strlen` counts it. */
  method StrLen(str: seq<Byte>) returns (n: nat)
    ensures n == |CString(str)| && str[..n] == CString(str)
  {
    hide CString;
    n := 0;
    assert str[0..] == str;
    while n < |str| && str[n] != 0
      invariant n <= |str|
      invariant CString(str) == str[..n] + CString(str[n..])
    {
      CStringFrom(str, n);
      assert str[..n] + [str[n]] == str[..n + 1];
      n := n + 1;
    }
    CStringFrom(str, n);
  }

  method AddString(section: SD.SectionData, str: seq<Byte>) returns (position: nat)
    requires section.Valid() && 4 * (section.dataSize + |str| + 2) < W32
    modifies section, section.data
    ensures section.Valid() && section.stype == old(section.stype)
    ensures position == NextPosition(old(section.Contents()))
    ensures section.Contents() == if section.stype == SHT_NOBITS then old(section.Contents())
                                  else AddTo(old(section.Contents()), str)
  {
    hide CString;
    ghost var before := section.Contents();
    position := LeadingNul(section);
    var n := StrLen(str);
    section.AppendData(str[..n] + [0]);
    assert (if |before| == 0 then [0] else before) + (CString(str) + [0]) == AddTo(before, str);
  }

  /** The position of the next string; an empty table first gets its NUL byte. */
  method LeadingNul(section: SD.SectionData) returns (position: nat)
    requires section.Valid() && 2 * (section.dataSize + 1) < W32
    modifies section, section.data
    ensures section.Valid() && section.stype == old(section.stype)
    ensures section.data == old(section.data) || fresh(section.data)
    ensures section.dataSize <= 2 * (old(section.dataSize) + 1)
    ensures position == NextPosition(old(section.Contents()))
    ensures section.Contents() == if section.stype == SHT_NOBITS || |old(section.Contents())| > 0 then old(section.Contents()) else [0]
  {
    position := section.size;
    if position == 0 {
      section.AppendData([0]);
      position := position + 1;
    }
  }
}
