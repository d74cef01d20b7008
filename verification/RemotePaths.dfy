/** Absolute POSIX paths on a remote host. */
module RemotePaths {
  import opened Ordering

  /** `str::split(separator)`. */
  function Split(s: string, separator: char := '/'): (parts: seq<string>)
    ensures |parts| >= 1
  {
    if s == [] then [[]]
    else
      PushFront(s[0], Split(s[1..], separator), separator)
  }

  function Join(parts: seq<string>, separator: char := '/'): string
    requires |parts| >= 1
  {
    if |parts| == 1 then parts[0] else parts[0] + [separator] + Join(parts[1..], separator)
  }

  /** "/" or an absolute path of at most 1024 bytes whose segments are neither empty nor dots. */
  predicate ValidRemotePath(path: string) {
    path == "/" ||
    (&& "/" <= path && Utf8Length(path) <= 1024
     && (forall c | c in path :: c != '\0' && c != '\n' && c != '\r' && c != '\\')
     && (forall i | 1 <= i < |Split(path)| :: Split(path)[i] !in ["", ".", ".."]))
  }

  /** The names a valid path goes through; none for the root directory. */
  function Segments(path: string): seq<string>
    requires ValidRemotePath(path)
  {
    if path == "/" then [] else Split(path)[1..]
  }

  lemma {:induction false} JoinSplit(s: string, separator: char := '/')
    ensures Join(Split(s, separator), separator) == s
  {
    if s != [] {
      JoinSplit(s[1..], separator);
      var rest := Split(s[1..], separator);
      assert s == [s[0]] + s[1..];
      if s[0] == separator {
        assert Split(s, separator)[1..] == rest;
      } else {
        assert Split(s, separator)[1..] == rest[1..];
      }
    }
  }

  /** One more character in front of a text: a new empty part, or a longer first part. */
  function PushFront(c: char, parts: seq<string>, separator: char): seq<string>
    requires |parts| >= 1
  {
    if c == separator then [[]] + parts else [[c] + parts[0]] + parts[1..]
  }

  lemma PushFrontAppend(c: char, parts: seq<string>, more: seq<string>, separator: char)
    requires |parts| >= 1
    ensures PushFront(c, parts + more, separator) == PushFront(c, parts, separator) + more
  {
    assert (parts + more)[0] == parts[0] && (parts + more)[1..] == parts[1..] + more;
  }

  lemma {:induction false} SplitAt(a: string, b: string, separator: char := '/')
    ensures Split(a + [separator] + b, separator) == Split(a, separator) + Split(b, separator)
  {
    var whole := a + [separator] + b;
    if a == [] {
      assert whole == [separator] + b && whole[1..] == b;
      assert Split(a, separator) == [[]];
    } else {
      assert whole[0] == a[0] && whole[1..] == a[1..] + [separator] + b;
      SplitAt(a[1..], b, separator);
      PushFrontAppend(a[0], Split(a[1..], separator), Split(b, separator), separator);
    }
  }

  /** A text without the separator is its own only part. */
  lemma {:induction false} SplitWhole(s: string, separator: char)
    requires separator !in s
    ensures Split(s, separator) == [s]
  {
    if s != [] {
      SplitWhole(s[1..], separator);
      assert s == [s[0]] + s[1..];
    }
  }

  lemma {:induction false} JoinAppend(a: seq<string>, b: seq<string>)
    requires |a| >= 1 && |b| >= 1
    ensures Join(a + b) == Join(a) + "/" + Join(b)
  {
    if |a| == 1 {
      assert (a + b)[1..] == b;
    } else {
      assert (a + b)[1..] == a[1..] + b;
      JoinAppend(a[1..], b);
    }
  }

  /** Only the root directory has no segments, and segments determine the path. */
  lemma SegmentsAreInjective(p: string, q: string)
    requires ValidRemotePath(p) && ValidRemotePath(q) && Segments(p) == Segments(q)
    ensures p == q
  {
    SegmentsOf(p);
    SegmentsOf(q);
    if p != "/" && q != "/" {
      JoinSplit(p);
      JoinSplit(q);
      assert Split(p) == [Split(p)[0]] + Split(p)[1..] && Split(q) == [Split(q)[0]] + Split(q)[1..];
    }
  }

  lemma SegmentsOf(p: string)
    requires ValidRemotePath(p)
    ensures p == "/" <==> Segments(p) == []
    ensures p != "/" ==> Split(p) == [""] + Segments(p)
  {
    if p != "/" {
      assert p == "" + "/" + p[1..];
      SplitAt("", p[1..]);
      assert Split("") == [[]];
    }
  }

  lemma {:induction false} NoSeparatorInside(s: string, separator: char)
    ensures forall part | part in Split(s, separator) :: separator !in part
  {
    if s != [] {
      NoSeparatorInside(s[1..], separator);
    }
  }

  /** Parts without the separator survive being joined. */
  lemma {:induction false} SplitJoin(parts: seq<string>)
    requires parts != [] && forall part | part in parts :: '/' !in part
    ensures Split(Join(parts)) == parts
  {
    SplitWhole(parts[0], '/');
    if |parts| > 1 {
      SplitJoin(parts[1..]);
      SplitAt(parts[0], Join(parts[1..]));
      assert parts == [parts[0]] + parts[1..];
    }
  }

  predicate IsNameChar(c: char) { c !in {'/', '\\', '\0', '\n', '\r'} }

  /** A path that goes through `names`, each of which names something. */
  predicate GoesThrough(path: string, names: seq<string>) {
    && names != [] && path == "/" + Join(names) && Utf8Length(path) < 1025
    && forall i | 0 <= i < |names| :: names[i] !in {"", ".", ".."} && forall k | 0 <= k < |names[i]| :: IsNameChar(names[i][k])
  }

  /** The valid paths are the root directory and the paths through proper names. */
  lemma ValidPathsGoThroughNames(path: string)
    ensures ValidRemotePath(path) <==> path == "/" || exists names :: GoesThrough(path, names)
  {
    if ValidRemotePath(path) && path != "/" {
      GoesThroughItsSegments(path);
    }
    forall names | GoesThrough(path, names) ensures ValidRemotePath(path) {
      JoinOfNamesIsValid(path, names);
    }
  }

  lemma GoesThroughItsSegments(path: string)
    requires ValidRemotePath(path) && path != "/"
    ensures GoesThrough(path, Segments(path))
  {
    SegmentsOf(path);
    JoinSplit(path);
    var names := Segments(path);
    assert names != [];
    assert Split(path)[1..] == names && Split(path)[0] == "";
    forall i | 0 <= i < |names|
      ensures names[i] !in {"", ".", ".."} && forall k | 0 <= k < |names[i]| :: IsNameChar(names[i][k])
    {
      SegmentIsName(path, i);
    }
  }

  lemma SegmentIsName(path: string, i: nat)
    requires ValidRemotePath(path) && i + 1 < |Split(path)|
    ensures var name := Split(path)[i + 1]; forall k | 0 <= k < |name| :: IsNameChar(name[k])
  {
    var name := Split(path)[i + 1];
    NoSeparatorInside(path, '/');
    PartsAreInside(path, i + 1);
    forall k | 0 <= k < |name| ensures IsNameChar(name[k]) {
      assert name[k] in name && name in Split(path);
    }
  }

  lemma {:induction false} PartsAreInside(s: string, i: nat)
    requires i < |Split(s)|
    ensures forall c | c in Split(s)[i] :: c in s
  {
    if s != [] {
      var rest := Split(s[1..]);
      assert forall c | c in s[1..] :: c in s;
      if s[0] == '/' {
        if i > 0 {
          PartsAreInside(s[1..], i - 1);
        }
      } else {
        PartsAreInside(s[1..], i);
      }
    }
  }

  lemma JoinOfNamesIsValid(path: string, names: seq<string>)
    requires GoesThrough(path, names)
    ensures ValidRemotePath(path)
  {
    forall part | part in names ensures '/' !in part {
    }
    SplitJoin(names);
    SplitAt("", Join(names));
    assert path == "" + ['/'] + Join(names) && Split("") == [""];
    assert Split(path) == [""] + names;
    forall c | c in path ensures c != '\0' && c != '\n' && c != '\r' && c != '\\' {
      if c != '/' {
        JoinedChars(names, c);
      }
    }
  }

  lemma {:induction false} JoinedChars(parts: seq<string>, c: char)
    requires parts != [] && c in Join(parts) && c != '/'
    ensures exists i, k :: 0 <= i < |parts| && 0 <= k < |parts[i]| && parts[i][k] == c
  {
    if c in parts[0] {
      var k :| 0 <= k < |parts[0]| && parts[0][k] == c;
    } else if |parts| > 1 {
      assert c in Join(parts[1..]);
      JoinedChars(parts[1..], c);
      var i, k :| 0 <= i < |parts[1..]| && 0 <= k < |parts[1..][i]| && parts[1..][i][k] == c;
      assert parts[i + 1][k] == c;
    }
  }
}
