/** Paths of trashed files: the form with backslashes and the normal form, and the translation between bind mount
    points and the devices behind them. */
module TrashPath {

  /** `QString::replace`: every occurrence from the left, not overlapping. */
  function Replace(s: string, before: string, after: string): string
    requires before != ""
  {
    if |s| < |before| then s
    else if s[..|before|] == before then after + Replace(s[|before|..], before, after)
    else [s[0]] + Replace(s[1..], before, after)
  }

  predicate Occurs(s: string, p: string)
    requires p != ""
  {
    |s| >= |p| && (s[..|p|] == p || Occurs(s[1..], p))
  }

  predicate StartsWith(s: string, p: string) { |p| <= |s| && s[..|p|] == p }

  lemma {:induction false} ReplaceLength(s: string, before: string, after: string)
    requires before != ""
    ensures |after| == |before| ==> |Replace(s, before, after)| == |s|
    ensures |after| > |before| ==> |Replace(s, before, after)| >= |s| && (Occurs(s, before) ==> |Replace(s, before, after)| > |s|)
    ensures |after| < |before| ==> |Replace(s, before, after)| <= |s| && (Occurs(s, before) ==> |Replace(s, before, after)| < |s|)
  {
    if |s| >= |before| {
      ReplaceLength(if s[..|before|] == before then s[|before|..] else s[1..], before, after);
    }
  }

  /** Replacing leaves a string as it is exactly when there is nothing to replace, or nothing changes by it. */
  lemma {:induction false} ReplaceIsIdentity(s: string, before: string, after: string)
    requires before != ""
    ensures Replace(s, before, after) == s <==> before == after || !Occurs(s, before)
  {
    if |after| != |before| && Occurs(s, before) {
      ReplaceLength(s, before, after);
    } else if |s| >= |before| {
      if s[..|before|] == before {
        var rest := s[|before|..];
        ReplaceIsIdentity(rest, before, after);
        assert s == before + rest;
        if |after| == |before| && after + Replace(rest, before, after) == before + rest {
          assert after == (after + Replace(rest, before, after))[..|before|] == before;
        }
      } else {
        ReplaceIsIdentity(s[1..], before, after);
        assert s == [s[0]] + s[1..];
        assert ([s[0]] + Replace(s[1..], before, after))[1..] == Replace(s[1..], before, after);
      }
    }
  }

  /** A text occurs in a string if and only if the string goes on with it from some position on. */
  lemma {:induction false} OccursExactly(s: string, p: string)
    requires p != ""
    ensures Occurs(s, p) <==> exists i :: 0 <= i <= |s| && StartsWith(s[i..], p)
  {
    if |s| >= |p| {
      OccursExactly(s[1..], p);
      assert s[0..] == s;
      if exists i :: 0 <= i <= |s[1..]| && StartsWith(s[1..][i..], p) {
        var i :| 0 <= i <= |s[1..]| && StartsWith(s[1..][i..], p);
        assert s[1..][i..] == s[i + 1..];
      }
      if exists i :: 0 <= i <= |s| && StartsWith(s[i..], p) {
        var i :| 0 <= i <= |s| && StartsWith(s[i..], p);
        if i > 0 {
          assert s[1..][i - 1..] == s[i..];
        }
      }
    }
  }

  /** Replacing rewrites the first occurrence and goes on behind it. */
  lemma {:induction false} FirstIsReplaced(s: string, before: string, after: string, i: nat)
    requires before != "" && i <= |s| && StartsWith(s[i..], before)
    requires forall j :: 0 <= j < i ==> !StartsWith(s[j..], before)
    ensures Replace(s, before, after) == s[..i] + after + Replace(s[i + |before|..], before, after)
    decreases i
  {
    hide Replace;
    assert s[0..] == s;
    ReplaceHead(s, before, after);
    if i > 0 {
      var t := s[1..];
      assert !StartsWith(s[0..], before);
      TailsOfTail(s, i);
      FirstIsReplaced(t, before, after, i - 1);
      PutInFront(s, before, after, i, Replace(s[i + |before|..], before, after));
    }
  }

  lemma TailsOfTail(s: string, i: nat)
    requires 0 < i <= |s|
    ensures forall j :: 0 <= j < i ==> s[1..][j..] == s[j + 1..]
  {
  }

  lemma ReplaceHead(s: string, before: string, after: string)
    requires before != ""
    ensures StartsWith(s, before) ==> Replace(s, before, after) == after + Replace(s[|before|..], before, after)
    ensures !StartsWith(s, before) && |s| >= |before| ==> Replace(s, before, after) == [s[0]] + Replace(s[1..], before, after)
  {
  }

  lemma PutInFront(s: string, before: string, after: string, i: nat, rest: string)
    requires before != "" && 0 < i && i + |before| <= |s|
    ensures s[1..][i - 1 + |before|..] == s[i + |before|..]
    ensures [s[0]] + (s[1..][..i - 1] + after + rest) == s[..i] + after + rest
  {
    assert [s[0]] + s[1..][..i - 1] == s[..i];
  }

  // ---------------------------------------------------------------- trash form and normal form

  function BackslashPathToNormal(trash: string): string {
    if '\\' !in trash then trash else Replace(Replace(trash, "\\", "/"), "//", "/")
  }

  function NormalPathToBackslash(normal: string): string { "/" + Replace(normal, "/", "\\") }

  /** Replacing one character by another works on each character. */
  lemma {:induction false} ReplaceChar(s: string, a: char, b: char)
    ensures |Replace(s, [a], [b])| == |s|
    ensures forall i :: 0 <= i < |s| ==> Replace(s, [a], [b])[i] == if s[i] == a then b else s[i]
  {
    if s != "" {
      ReplaceChar(s[1..], a, b);
    }
  }

  /** Trash form is a slash in front of the path with every slash turned into a backslash. */
  lemma BackslashForm(normal: string)
    ensures var trash := NormalPathToBackslash(normal);
      && |trash| == |normal| + 1 && trash[0] == '/'
      && forall i :: 0 <= i < |normal| ==> trash[i + 1] == if normal[i] == '/' then '\\' else normal[i]
  {
    ReplaceChar(normal, '/', '\\');
  }

  /** Normal form leaves a path without backslash alone; otherwise every backslash becomes a slash, and where that puts
      no two slashes side by side nothing else happens. */
  lemma NormalForm(trash: string)
    ensures '\\' !in trash ==> BackslashPathToNormal(trash) == trash
    ensures var slashed := Replace(trash, "\\", "/");
      && |slashed| == |trash| && (forall i :: 0 <= i < |trash| ==> slashed[i] == if trash[i] == '\\' then '/' else trash[i])
      && ('\\' in trash && !Occurs(slashed, "//") ==> BackslashPathToNormal(trash) == slashed)
      && ('\\' in trash && Occurs(slashed, "//") ==> |BackslashPathToNormal(trash)| < |trash|)
  {
    ReplaceChar(trash, '\\', '/');
    ReplaceIsIdentity(Replace(trash, "\\", "/"), "//", "/");
    ReplaceLength(Replace(trash, "\\", "/"), "//", "/");
  }

  lemma {:induction false} SlashesOccur(s: string)
    ensures Occurs(s, "//") <==> exists i :: 0 <= i < |s| - 1 && s[i] == '/' && s[i + 1] == '/'
  {
    if |s| >= 2 {
      SlashesOccur(s[1..]);
      assert s[..2] == [s[0], s[1]];
      if Occurs(s[1..], "//") {
        var i :| 0 <= i < |s[1..]| - 1 && s[1..][i] == '/' && s[1..][i + 1] == '/';
        assert s[i + 1] == '/' && s[i + 2] == '/';
      }
      if exists i :: 0 <= i < |s| - 1 && s[i] == '/' && s[i + 1] == '/' {
        var i :| 0 <= i < |s| - 1 && s[i] == '/' && s[i + 1] == '/';
        if i > 0 {
          assert s[1..][i - 1] == '/' && s[1..][i - 1 + 1] == '/';
        }
      }
    }
  }

  /** Trash form and back is the identity on exactly these paths: absolute, without backslash, and without a double
      slash behind the first character. */
  lemma NormalRoundTrip(normal: string)
    ensures BackslashPathToNormal(NormalPathToBackslash(normal)) == normal
            <==> normal != "" && normal[0] == '/' && '\\' !in normal && !Occurs(normal[1..], "//")
  {
    var back := Replace(normal, "/", "\\");
    ReplaceChar(normal, '/', '\\');
    var trash := "/" + back;
    assert forall i :: 0 <= i < |back| ==> trash[i + 1] == back[i];
    var forth := Replace(trash, "\\", "/");
    ReplaceChar(trash, '\\', '/');
    if normal != "" && normal[0] == '/' {
      assert trash[1] == '\\';
      var rest := forth[2..];
      assert forth[..2] == "//";
      ReplaceIsIdentity(rest, "//", "/");
      assert BackslashPathToNormal(trash) == "/" + Replace(rest, "//", "/");
      if '\\' in normal {
        NoBackslashLeft(trash);
      } else {
        assert forall i :: 0 <= i < |normal| - 1 ==> rest[i] == normal[i + 1];
        assert rest == normal[1..];
        assert normal == "/" + rest;
        SlashAndRest(Replace(rest, "//", "/"), rest);
      }
    } else {
      StaysAbsolute(trash);
    }
  }

  lemma SlashAndRest(a: string, b: string)
    ensures "/" + a == "/" + b <==> a == b
  {
    if "/" + a == "/" + b {
      assert a == ("/" + a)[1..] == ("/" + b)[1..] == b;
    }
  }

  lemma {:induction false} CollapseKeepsOut(s: string)
    requires '\\' !in s
    ensures '\\' !in Replace(s, "//", "/")
  {
    if |s| >= 2 {
      CollapseKeepsOut(if s[..2] == "//" then s[2..] else s[1..]);
    }
  }

  lemma NoBackslashLeft(trash: string)
    ensures '\\' !in BackslashPathToNormal(trash)
  {
    if '\\' in trash {
      ReplaceChar(trash, '\\', '/');
      CollapseKeepsOut(Replace(trash, "\\", "/"));
    }
  }

  /** A path that starts with a slash still does afterwards. */
  lemma StaysAbsolute(trash: string)
    requires trash != "" && trash[0] == '/'
    ensures BackslashPathToNormal(trash) != "" && BackslashPathToNormal(trash)[0] == '/'
  {
    if '\\' in trash {
      ReplaceChar(trash, '\\', '/');
      var forth := Replace(trash, "\\", "/");
      assert forth[0] == '/';
    }
  }

  /** Normal form and back is the identity on exactly these names: a slash, a backslash, and behind them neither a
      slash nor a double backslash. */
  lemma TrashRoundTrip(trash: string)
    ensures NormalPathToBackslash(BackslashPathToNormal(trash)) == trash
            <==> |trash| >= 2 && trash[0] == '/' && trash[1] == '\\' && '/' !in trash[1..] && !Occurs(trash[2..], "\\\\")
  {
    var normal := BackslashPathToNormal(trash);
    ReplaceChar(normal, '/', '\\');
    var back := Replace(normal, "/", "\\");
    if '\\' !in trash {
      assert |NormalPathToBackslash(normal)| == |trash| + 1;
    } else {
      ReplaceChar(trash, '\\', '/');
      var forth := Replace(trash, "\\", "/");
      if |trash| >= 2 && trash[0] == '/' && trash[1] == '\\' {
        var rest := forth[2..];
        assert forth[..2] == "//" && normal == "/" + Replace(rest, "//", "/");
        ReplaceIsIdentity(rest, "//", "/");
        RestRoundTrip(trash[2..], rest);
        ReplaceChar(Replace(rest, "//", "/"), '/', '\\');
        TwoInFront(trash, normal, Replace(rest, "//", "/"));
      } else if trash[0] == '/' {
        NotTwoInFront(trash, normal, back);
      }
    }
  }

  /** The part behind the first two characters. */
  lemma RestRoundTrip(u: string, rest: string)
    requires |rest| == |u| && forall i :: 0 <= i < |u| ==> rest[i] == if u[i] == '\\' then '/' else u[i]
    ensures Replace(Replace(rest, "//", "/"), "/", "\\") == u <==> '/' !in u && !Occurs(u, "\\\\")
  {
    var collapsed := Replace(rest, "//", "/");
    ReplaceIsIdentity(rest, "//", "/");
    ReplaceLength(rest, "//", "/");
    ReplaceChar(collapsed, '/', '\\');
    var back := Replace(collapsed, "/", "\\");
    if '/' in u {
      assert '/' !in back;
    } else {
      SameDoubles(u, rest);
      if Occurs(rest, "//") {
        assert |back| < |u|;
      } else {
        assert forall i :: 0 <= i < |u| ==> back[i] == u[i];
      }
    }
  }

  lemma {:induction false} SameDoubles(u: string, rest: string)
    requires |rest| == |u| && '/' !in u && forall i :: 0 <= i < |u| ==> rest[i] == if u[i] == '\\' then '/' else u[i]
    ensures Occurs(rest, "//") <==> Occurs(u, "\\\\")
  {
    if |u| >= 2 {
      SameDoubles(u[1..], rest[1..]);
      assert u[..2] == [u[0], u[1]] && rest[..2] == [rest[0], rest[1]];
      assert u[0] in u && u[1] in u;
    }
  }

  lemma TwoInFront(trash: string, normal: string, tail: string)
    requires |trash| >= 2 && trash[0] == '/' && trash[1] == '\\' && normal == "/" + tail
    ensures NormalPathToBackslash(normal) == trash <==> Replace(tail, "/", "\\") == trash[2..]
    ensures '/' !in trash[1..] <==> '/' !in trash[2..]
  {
    assert normal[..1] == "/" && normal[1..] == tail;
    var t := Replace(tail, "/", "\\");
    assert NormalPathToBackslash(normal) == "/" + ("\\" + t);
    assert trash == "/" + ("\\" + trash[2..]);
    if "/" + ("\\" + t) == trash {
      assert t == ("/" + ("\\" + t))[2..] == trash[2..];
    }
    assert trash[1..] == [trash[1]] + trash[2..];
  }

  lemma NotTwoInFront(trash: string, normal: string, back: string)
    requires trash != "" && trash[0] == '/' && '\\' in trash && !(|trash| >= 2 && trash[1] == '\\')
    requires normal == BackslashPathToNormal(trash) && back == Replace(normal, "/", "\\")
    ensures "/" + back != trash
  {
    StaysAbsolute(trash);
    ReplaceChar(normal, '/', '\\');
    assert ("/" + back)[1] == back[0] == '\\';
  }

  // ---------------------------------------------------------------- bind mounts

  /** The device table in the order of its keys: device and mount point. */
  type BindTable = seq<(string, string)>

  function From(entry: (string, string), toDevice: bool): string { if toDevice then entry.1 else entry.0 }

  function To(entry: (string, string), toDevice: bool): string { if toDevice then entry.0 else entry.1 }

  /** Table entries are not empty. */
  ghost predicate TableOk(table: BindTable) {
    forall k :: 0 <= k < |table| ==> table[k].0 != "" && table[k].1 != ""
  }

  /** The first entry from `k` on that the path starts with, or the end of the table. */
  function FirstMatch(table: BindTable, path: string, toDevice: bool, k: nat): (r: nat)
    ensures r >= k && (r < |table| ==> StartsWith(path, From(table[r], toDevice)))
    ensures forall j :: k <= j < r && j < |table| ==> !StartsWith(path, From(table[j], toDevice))
    decreases |table| - k
  {
    if k >= |table| then k
    else if StartsWith(path, From(table[k], toDevice)) then k
    else FirstMatch(table, path, toDevice, k + 1)
  }

  ghost function BindPath(table: BindTable, path: string, toDevice: bool): string
    requires TableOk(table)
  {
    if !StartsWith(path, "/") || path == "/" then path
    else
      var k := FirstMatch(table, path, toDevice, 0);
      if k >= |table| then path else Replace(path, From(table[k], toDevice), To(table[k], toDevice))
  }

  /** `QMap::key`: the first key with this value. */
  method KeyOf(table: BindTable, value: string) returns (key: string)
    requires exists k :: 0 <= k < |table| && table[k].1 == value
    ensures exists k :: 0 <= k < |table| && table[k] == (key, value) && forall j :: 0 <= j < k ==> table[j].1 != value
  {
    var i := 0;
    while table[i].1 != value
      invariant 0 <= i < |table|
      invariant forall j :: 0 <= j < i ==> table[j].1 != value
      decreases |table| - i
    {
      i := i + 1;
    }
    key := table[i].0;
    assert table[i] == (key, value);
  }

  method BindPathTransform(table: BindTable, path: string, toDevice: bool) returns (bindPath: string)
    requires TableOk(table)
    ensures bindPath == BindPath(table, path, toDevice)
  {
    if !StartsWith(path, "/") || path == "/" {
      return path;
    }
    if |table| == 0 {
      return path;
    }
    bindPath := path;
    var i := 0;
    while i < |table|
      invariant 0 <= i <= |table| && bindPath == path
      invariant FirstMatch(table, path, toDevice, i) == FirstMatch(table, path, toDevice, 0)
    {
      if toDevice {
        if StartsWith(path, table[i].1) {
          var device := KeyOf(table, table[i].1);
          ghost var k :| 0 <= k < |table| && table[k] == (device, table[i].1) && forall j :: 0 <= j < k ==> table[j].1 != table[i].1;
          assert k == i;
          bindPath := Replace(bindPath, table[i].1, device);
          return;
        }
      } else {
        if StartsWith(path, table[i].0) {
          bindPath := Replace(bindPath, table[i].0, table[i].1);
          return;
        }
      }
      i := i + 1;
    }
  }

  /** The translation replaces every occurrence: only the leading one is rewritten exactly when the prefix does not
      occur again behind itself (or is translated to itself). */
  lemma OnlyPrefixRewritten(table: BindTable, path: string, toDevice: bool)
    requires TableOk(table) && StartsWith(path, "/") && path != "/"
    requires FirstMatch(table, path, toDevice, 0) < |table|
    ensures var e := table[FirstMatch(table, path, toDevice, 0)];
      var old', new' := From(e, toDevice), To(e, toDevice);
      (BindPath(table, path, toDevice) == new' + path[|old'|..]) <==> (old' == new' || !Occurs(path[|old'|..], old'))
  {
    var e := table[FirstMatch(table, path, toDevice, 0)];
    var p, q := From(e, toDevice), To(e, toDevice);
    var rest := path[|p|..];
    ReplaceIsIdentity(rest, p, q);
    if q + Replace(rest, p, q) == q + rest {
      assert Replace(rest, p, q) == (q + Replace(rest, p, q))[|q|..] == (q + rest)[|q|..] == rest;
    }
  }

  /** A file that happens to have the name of the device is renamed as well. */
  lemma LaterOccurrenceIsRewritten()
    ensures BindPath([("/d", "/m")], "/d/x/d", false) == "/m/x/m"
  {
    var table, path := [("/d", "/m")], "/d/x/d";
    assert FirstMatch(table, path, false, 0) == 0;
    assert path[2..] == "/x/d" && path[2..][1..] == "x/d" && path[2..][1..][1..] == "/d";
    assert Replace("", "/d", "/m") == "";
    assert "/d"[2..] == "" && Replace("/d", "/d", "/m") == "/m" + "";
    assert Replace("x/d", "/d", "/m") == ['x'] + Replace("/d", "/d", "/m");
    assert Replace("/x/d", "/d", "/m") == ['/'] + Replace("x/d", "/d", "/m");
    assert Replace(path, "/d", "/m") == "/m" + Replace("/x/d", "/d", "/m");
  }

  /** `bindUrlTransform` on the path of a URL. */
  ghost function BindUrl(table: BindTable, path: string): string
    requires TableOk(table)
  {
    if '\\' !in path then BindPath(table, path, false)
    else NormalPathToBackslash(BindPath(table, BackslashPathToNormal(path), false))
  }

  method BindUrlTransform(table: BindTable, path: string) returns (r: string)
    requires TableOk(table)
    ensures r == BindUrl(table, path)
  {
    if '\\' !in path {
      r := BindPathTransform(table, path, false);
    } else {
      r := BackslashPathToNormal(path);
      r := BindPathTransform(table, r, false);
      r := NormalPathToBackslash(r);
    }
  }

  /** The first device that a path starts with is number `k` of the table, and does not occur again behind itself. */
  ghost predicate OnDevice(table: BindTable, path: string, k: nat)
    requires TableOk(table)
  {
    && k < |table| && StartsWith(path, "/") && path != "/" && StartsWith(path, table[k].0)
    && (forall j :: 0 <= j < k ==> !StartsWith(path, table[j].0))
    && !Occurs(path[|table[k].0|..], table[k].0)
  }

  ghost predicate OnNoDevice(table: BindTable, path: string) {
    !StartsWith(path, "/") || path == "/" || forall j :: 0 <= j < |table| ==> !StartsWith(path, table[j].0)
  }

  /** A path without backslash moves from the device to its mount point, or stays when it is on no device. */
  lemma BindUrlOfPath(table: BindTable, path: string, k: nat)
    requires TableOk(table) && '\\' !in path
    ensures OnDevice(table, path, k) ==> BindUrl(table, path) == table[k].1 + path[|table[k].0|..]
    ensures OnNoDevice(table, path) ==> BindUrl(table, path) == path
  {
    hide Replace, Occurs;
    if OnDevice(table, path, k) {
      OnDeviceMoves(table, path, k);
    }
  }

  lemma OnDeviceMoves(table: BindTable, path: string, k: nat)
    requires TableOk(table) && OnDevice(table, path, k)
    ensures BindPath(table, path, false) == table[k].1 + path[|table[k].0|..]
  {
    hide Replace, Occurs;
    var first := FirstMatch(table, path, false, 0);
    assert first == k;
    OnlyPrefixRewritten(table, path, false);
  }

  /** A trash name of a file on a device becomes the trash name of the file under the mount point. */
  lemma BindUrlOfTrashName(table: BindTable, path: string, k: nat)
    requires TableOk(table) && '\\' in path && OnDevice(table, BackslashPathToNormal(path), k)
    ensures var target := table[k].1 + BackslashPathToNormal(path)[|table[k].0|..];
      var r := BindUrl(table, path);
      && |r| == |target| + 1 && r[0] == '/'
      && forall i :: 0 <= i < |target| ==> r[i + 1] == if target[i] == '/' then '\\' else target[i]
  {
    hide Replace, Occurs, NormalPathToBackslash, OnDevice;
    var normal := BackslashPathToNormal(path);
    OnDeviceMoves(table, normal, k);
    BackslashForm(BindPath(table, normal, false));
  }

  /** A trash name that no device is a prefix of is left as it is. */
  lemma BindUrlLeavesTrashNames(table: BindTable, path: string)
    requires TableOk(table)
    requires |path| >= 2 && path[0] == '/' && path[1] == '\\' && '/' !in path[1..] && !Occurs(path[2..], "\\\\")
    requires forall k :: 0 <= k < |table| ==> !StartsWith(BackslashPathToNormal(path), table[k].0)
    ensures BindUrl(table, path) == path
  {
    hide Replace, Occurs;
    TrashRoundTrip(path);
    assert path[1] in path;
  }
}
