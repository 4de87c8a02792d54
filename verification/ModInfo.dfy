/** Module information sections: `field=value` strings, one behind the other. */
module ModInfo {
  import opened Words
  import opened Bytes
  import opened StringTable
  import SD = SectionData

  const EQUALS: Byte := 61

  type Attribute = (seq<Byte>, seq<Byte>)

  /** The part in front of the first '=', or everything. */
  function BeforeEquals(s: seq<Byte>): (r: seq<Byte>)
    ensures EQUALS !in r && |r| <= |s| && r == s[..|r|]
    ensures |r| < |s| ==> s[|r|] == EQUALS
  {
    if s == [] || s[0] == EQUALS then [] else [s[0]] + BeforeEquals(s[1..])
  }

  /** Field and value of one string; without '=' both are the whole string. */
  function Split(info: seq<Byte>): Attribute {
    var field := BeforeEquals(info);
    (field, if |field| < |info| then info[|field| + 1..] else info)
  }

  function Encode(a: Attribute): seq<Byte> { a.0 + [EQUALS] + a.1 + [0] }

  function EncodeAll(attrs: seq<Attribute>): seq<Byte> {
    if attrs == [] then [] else Encode(attrs[0]) + EncodeAll(attrs[1..])
  }

  /** What `process_section` finds from byte `i` on. */
  function Parse(data: seq<Byte>, i: nat): seq<Attribute>
    decreases |data| - i
  {
    if i >= |data| then []
    else if data[i] == 0 then Parse(data, i + 1)
    else
      var info := CString(data[i..]);
      assert data[i..][0] == data[i];
      [Split(info)] + Parse(data, i + |info|)
  }

  /** A field without '=', and no NUL byte anywhere. */
  predicate Clean(a: Attribute) { '=' as int !in a.0 && 0 !in a.0 && 0 !in a.1 }

  ghost predicate AllClean(attrs: seq<Attribute>) { forall k :: 0 <= k < |attrs| ==> Clean(attrs[k]) }

  lemma {:induction false} BeforeEqualsOf(field: seq<Byte>, tail: seq<Byte>)
    requires EQUALS !in field
    ensures BeforeEquals(field + [EQUALS] + tail) == field
  {
    if field == [] {
      assert (field + [EQUALS] + tail)[0] == EQUALS;
    } else {
      assert (field + [EQUALS] + tail)[1..] == field[1..] + [EQUALS] + tail;
      BeforeEqualsOf(field[1..], tail);
    }
  }

  /** A string is divided at its first '='; without one it is both field and value. */
  lemma SplitExactly(info: seq<Byte>, i: nat)
    ensures '=' as int !in info ==> Split(info) == (info, info)
    ensures i < |info| && info[i] == '=' as int && '=' as int !in info[..i] ==> Split(info) == (info[..i], info[i + 1..])
  {
    var field := BeforeEquals(info);
    assert |field| < |info| ==> info[|field|] in info;
    assert info[..|info|] == info;
    if i < |info| && info[i] == '=' as int && '=' as int !in info[..i] {
      assert info == info[..i] + [EQUALS] + info[i + 1..];
      BeforeEqualsOf(info[..i], info[i + 1..]);
    }
  }

  lemma SplitOfClean(a: Attribute)
    requires Clean(a)
    ensures Split(a.0 + [EQUALS] + a.1) == a
  {
    BeforeEqualsOf(a.0, a.1);
    assert (a.0 + [EQUALS] + a.1)[|a.0| + 1..] == a.1;
  }

  lemma ParseStep(data: seq<Byte>, i: nat)
    ensures i >= |data| ==> Parse(data, i) == []
    ensures i < |data| && data[i] == 0 ==> Parse(data, i) == Parse(data, i + 1)
    ensures i < |data| && data[i] != 0 ==>
      Parse(data, i) == [Split(CString(data[i..]))] + Parse(data, i + |CString(data[i..])|)
  {
  }

  /** One clean attribute is found, and the search goes on behind it. */
  lemma OneIsFound(a: Attribute, rest: seq<Byte>, data: seq<Byte>, i: nat)
    requires Clean(a) && i <= |data| && data[i..] == Encode(a) + rest
    ensures i + |Encode(a)| <= |data| && data[i + |Encode(a)|..] == rest
    ensures Parse(data, i) == [a] + Parse(data, i + |Encode(a)|)
  {
    hide Parse;
    var text := a.0 + [EQUALS] + a.1;
    var d := text + [0] + rest;
    assert data[i..] == d && d[|text|] == 0 && d[0] == text[0] != 0;
    CStringOfTerminated(text, rest);
    SplitOfClean(a);
    assert data[i] == data[i..][0] && data[i + |text|] == data[i..][|text|];
    assert data[i + |text| + 1..] == data[i..][|text| + 1..] == rest;
    ParseStep(data, i);
    ParseStep(data, i + |text|);
  }

  /** Clean attributes are found again. */
  lemma {:induction false} CleanIsFound(attrs: seq<Attribute>, data: seq<Byte>, i: nat)
    requires AllClean(attrs) && i <= |data| && data[i..] == EncodeAll(attrs)
    ensures Parse(data, i) == attrs
  {
    hide Parse, Encode;
    ParseStep(data, i);
    if attrs != [] {
      OneIsFound(attrs[0], EncodeAll(attrs[1..]), data, i);
      CleanIsFound(attrs[1..], data, i + |Encode(attrs[0])|);
      assert attrs == [attrs[0]] + attrs[1..];
    }
  }

  lemma SplitIsClean(info: seq<Byte>)
    requires 0 !in info
    ensures Clean(Split(info))
  {
    var field := BeforeEquals(info);
    assert field == info[..|field|];
  }

  /** Whatever is found is clean. */
  lemma {:induction false} FoundIsClean(data: seq<Byte>, i: nat)
    ensures AllClean(Parse(data, i))
    decreases |data| - i
  {
    ParseStep(data, i);
    if i < |data| {
      if data[i] == 0 {
        FoundIsClean(data, i + 1);
      } else {
        var info := CString(data[i..]);
        assert data[i..][0] == data[i];
        SplitIsClean(info);
        FoundIsClean(data, i + |info|);
      }
    }
  }

  /** A fresh accessor finds exactly the attributes that were written, if and only if all of them are clean. */
  lemma RoundTripExactly(attrs: seq<Attribute>)
    ensures Parse(EncodeAll(attrs), 0) == attrs <==> AllClean(attrs)
  {
    assert EncodeAll(attrs)[0..] == EncodeAll(attrs);
    if AllClean(attrs) {
      CleanIsFound(attrs, EncodeAll(attrs), 0);
    }
    FoundIsClean(EncodeAll(attrs), 0);
  }

  lemma {:induction false} EncodeAllAppends(attrs: seq<Attribute>, a: Attribute)
    ensures EncodeAll(attrs + [a]) == EncodeAll(attrs) + Encode(a)
  {
    if attrs == [] {
      assert [a][1..] == [];
    } else {
      assert (attrs + [a])[1..] == attrs[1..] + [a];
      EncodeAllAppends(attrs[1..], a);
    }
  }

  class ModInfoAccessor {
    const section: SD.SectionData
    var content: seq<Attribute>

    constructor (section: SD.SectionData)
      requires section.Valid()
      ensures this.section == section && content == Parse(section.Contents(), 0)
    {
      this.section := section;
      content := [];
      new;
      ProcessSection();
    }

    method ProcessSection()
      requires section.Valid()
      modifies this
      ensures content == old(content) + Parse(section.Contents(), 0)
    {
      hide Parse, CString, Split;
      ghost var data := section.Contents();
      ParseStep(data, 0);
      if section.data == null {
        return;
      }
      var i := 0;
      while i < section.size
        invariant i <= section.size
        invariant content + Parse(data, i) == old(content) + Parse(data, 0)
        decreases |data| - i
      {
        while i < section.size && section.data[i] == 0
          invariant i <= section.size
          invariant content + Parse(data, i) == old(content) + Parse(data, 0)
        {
          ParseStep(data, i);
          i := i + 1;
        }
        if i < section.size {
          var info := GetString(section, i);
          ParseStep(data, i);
          NonEmpty(data, i);
          ghost var before := content;
          content := content + [Split(info.value)];
          assert before + ([Split(info.value)] + Parse(data, i + |info.value|)) == content + Parse(data, i + |info.value|);
          i := i + |info.value|;
        }
      }
      ParseStep(data, i);
    }

    /** Appends one attribute, and returns where it stands. */
    method AddAttribute(field: seq<Byte>, value: seq<Byte>) returns (position: nat)
      requires section.Valid() && section.stype != SHT_NOBITS
      requires 2 * (section.dataSize + |Encode((field, value))|) < W32
      modifies this, section, section.data
      ensures section.Valid() && section.stype == old(section.stype)
      ensures position == |old(section.Contents())|
      ensures section.Contents() == old(section.Contents()) + Encode((field, value))
      ensures content == old(content) + [(field, value)]
    {
      position := section.size;
      section.AppendData(field + [EQUALS] + value + [0]);
      content := content + [(field, value)];
    }
  }

  lemma NonEmpty(data: seq<Byte>, i: nat)
    requires i < |data| && data[i] != 0
    ensures 0 < |CString(data[i..])| <= |data| - i
  {
    assert data[i..][0] == data[i];
  }
}
