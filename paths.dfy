/**
 * Go's strings.Split(path, "/") and the segments the request handler reads
 * from its result.
 */
module Paths {

  /** The pieces of s between slashes; a string with n slashes has n + 1 pieces. */
  function Split(s: string): (parts: seq<string>)
    ensures |parts| == 1 + Slashes(s)
    ensures forall i :: 0 <= i < |parts| ==> '/' !in parts[i]
  {
    if s == [] then [""]
    else
      var rest := Split(s[1..]);
      if s[0] == '/' then [""] + rest
      else [[s[0]] + rest[0]] + rest[1..]
  }

  function Slashes(s: string): nat {
    if s == [] then 0 else (if s[0] == '/' then 1 else 0) + Slashes(s[1..])
  }

  lemma {:induction false} SlashesCount(s: string)
    ensures Slashes(s) > 0 <==> '/' in s
  {
    if s != [] {
      SlashesCount(s[1..]);
      assert '/' in s <==> s[0] == '/' || '/' in s[1..];
    }
  }

  /** strings.Join(parts, "/"), the inverse of Split. */
  function Join(parts: seq<string>): string
    requires |parts| > 0
  {
    if |parts| == 1 then parts[0] else parts[0] + "/" + Join(parts[1..])
  }

  lemma {:induction false} JoinConsHead(c: char, parts: seq<string>)
    requires |parts| > 0
    ensures Join([[c] + parts[0]] + parts[1..]) == [c] + Join(parts)
  {
    var ps := [[c] + parts[0]] + parts[1..];
    assert ps[1..] == parts[1..];
  }

  lemma {:induction false} JoinSplit(s: string)
    ensures Join(Split(s)) == s
  {
    if s != [] {
      var rest := Split(s[1..]);
      JoinSplit(s[1..]);
      if s[0] == '/' {
        assert ([""] + rest)[1..] == rest;
      } else {
        JoinConsHead(s[0], rest);
      }
      assert [s[0]] + s[1..] == s;
    }
  }

  lemma {:induction false} SplitJoin(parts: seq<string>)
    requires |parts| > 0
    requires forall i :: 0 <= i < |parts| ==> '/' !in parts[i]
    ensures Split(Join(parts)) == parts
  {
    if |parts| == 1 {
      SplitNoSlash(parts[0]);
    } else {
      SplitJoin(parts[1..]);
      SplitSlashAppend(parts[0], Join(parts[1..]));
      assert [parts[0]] + parts[1..] == parts;
    }
  }

  lemma {:induction false} SplitNoSlash(p: string)
    requires '/' !in p
    ensures Split(p) == [p]
  {
    if p != [] {
      SplitNoSlash(p[1..]);
      assert [p[0]] + p[1..] == p;
    }
  }

  /** A slash-free piece in front of a slash becomes a piece of its own. */
  lemma {:induction false} SplitSlashAppend(p: string, t: string)
    requires '/' !in p
    ensures Split(p + "/" + t) == [p] + Split(t)
  {
    if p == [] {
      assert p + "/" + t == "/" + t;
      assert ("/" + t)[1..] == t;
    } else {
      var s := p + "/" + t;
      assert s[0] == p[0];
      assert s[1..] == p[1..] + "/" + t;
      SplitSlashAppend(p[1..], t);
      assert [p[0]] + p[1..] == p;
    }
  }

  /** The last piece of a split is the slash-free tail of s, after its last slash if it has one. */
  lemma {:induction false} SplitLastIsTail(s: string)
    ensures var parts := Split(s); var l := parts[|parts| - 1];
      && |l| <= |s| && s[|s| - |l|..] == l
      && (|l| < |s| ==> s[|s| - |l| - 1] == '/')
  {
    if s != [] {
      var rest := Split(s[1..]);
      SplitLastIsTail(s[1..]);
      var l := rest[|rest| - 1];
      assert s[1..][|s| - 1 - |l|..] == s[|s| - |l|..];
      SlashesCount(s[1..]);
      if |l| < |s| - 1 {
        assert s[1..][|s| - 1 - |l| - 1] == '/';
      } else {
        assert l == s[1..];
      }
      if s[0] != '/' && |rest| == 1 {
        assert [s[0]] + s[1..] == s;
      }
    }
  }

  /** A slash-free last piece after a slash becomes a piece of its own. */
  lemma {:induction false} SplitSnoc(p: string, t: string)
    requires '/' !in t
    ensures Split(p + "/" + t) == Split(p) + [t]
  {
    var parts := Split(p) + [t];
    JoinSplit(p);
    JoinAppend(Split(p), [t]);
    assert Join(parts) == p + "/" + t;
    SplitJoin(parts);
  }

  /** The path after its last slash: the switch value of the request handler. */
  function LastSegment(path: string): (seg: string)
    ensures '/' !in seg
    ensures |seg| <= |path| && path[|path| - |seg|..] == seg
    ensures |seg| < |path| ==> path[|path| - |seg| - 1] == '/'
    ensures '/' in path <==> |seg| < |path|
  {
    SplitLastIsTail(path);
    var parts := Split(path);
    var seg := parts[|parts| - 1];
    assert |seg| == |path| ==> seg == path;
    seg
  }

  /** The piece just before the last one: the serial of a meta-data request,
      which is the last segment of what precedes the path's last slash. */
  function SerialSegment(path: string): (seg: string)
    requires '/' in path
    ensures '/' !in seg
    ensures seg == LastSegment(path[..|path| - |LastSegment(path)| - 1])
  {
    var last := LastSegment(path);
    var front := path[..|path| - |last| - 1];
    assert path == front + "/" + last;
    SplitSnoc(front, last);
    var parts := Split(path);
    parts[|parts| - 2]
  }

  /** A path of a slash-free serial and a slash-free last piece yields those two segments. */
  lemma {:induction false} SegmentsOfShort(serial: string, last: string)
    requires '/' !in serial && '/' !in last
    ensures var path := serial + "/" + last;
      '/' in path && LastSegment(path) == last && SerialSegment(path) == serial
  {
    var path := serial + "/" + last;
    assert path[|serial|] == '/';
    SplitSnoc(serial, last);
    SplitNoSlash(serial);
  }

  /** A path made of a prefix, a slash-free serial and a slash-free last piece
      yields those two segments. */
  lemma {:induction false} SegmentsOf(prefix: string, serial: string, last: string)
    requires '/' !in serial && '/' !in last
    ensures var path := prefix + "/" + serial + "/" + last;
      '/' in path && LastSegment(path) == last && SerialSegment(path) == serial
  {
    var path := prefix + "/" + serial + "/" + last;
    assert path[|prefix|] == '/';
    JoinSplit(prefix);
    var parts := Split(prefix) + [serial, last];
    JoinAppend(Split(prefix), [serial, last]);
    assert Join([serial, last]) == serial + "/" + last;
    assert Join(parts) == path;
    SplitJoin(parts);
  }

  lemma {:induction false} JoinAppend(xs: seq<string>, ys: seq<string>)
    requires |xs| > 0 && |ys| > 0
    ensures Join(xs + ys) == Join(xs) + "/" + Join(ys)
  {
    if |xs| == 1 {
      assert (xs + ys)[1..] == ys;
    } else {
      JoinAppend(xs[1..], ys);
      assert (xs + ys)[1..] == xs[1..] + ys;
    }
  }
}
