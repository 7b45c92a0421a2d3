/**
 * Variable names are slash-separated paths. `String.prototype.split("/")`
 * keeps empty segments ("a//b" gives ["a", "", "b"]) and always yields at
 * least one segment ("" gives [""]).
 */
module Names {

  /** `s.split("/")`. */
  function Split(s: string): (r: seq<string>)
    ensures |r| >= 1
    ensures forall i :: 0 <= i < |r| ==> '/' !in r[i]
    decreases |s|
  {
    if s == [] then [""]
    else
      var rest := Split(s[1..]);
      if s[0] == '/' then [""] + rest
      else [[s[0]] + rest[0]] + rest[1..]
  }

  /** `segs.join("/")`, the inverse of Split. */
  function Join(segs: seq<string>): string
    requires |segs| >= 1
    decreases |segs|
  {
    if |segs| == 1 then segs[0] else segs[0] + "/" + Join(segs[1..])
  }

  /** Joining the segments of a name gives the name back. */
  lemma {:induction false} JoinSplit(s: string)
    ensures Join(Split(s)) == s
    decreases |s|
  {
    if s != [] {
      var rest := Split(s[1..]);
      JoinSplit(s[1..]);
      if s[0] == '/' {
        assert Split(s) == [""] + rest;
        assert (([""] + rest)[1..]) == rest;
        assert Join(Split(s)) == "" + "/" + Join(rest);
        assert s == [s[0]] + s[1..];
      } else {
        var r := [[s[0]] + rest[0]] + rest[1..];
        assert Split(s) == r;
        if |rest| == 1 {
          assert Join(r) == [s[0]] + rest[0];
          assert Join(rest) == rest[0];
        } else {
          assert r[1..] == rest[1..];
          assert Join(r) == [s[0]] + rest[0] + "/" + Join(rest[1..]);
          assert Join(rest) == rest[0] + "/" + Join(rest[1..]);
        }
        assert s == [s[0]] + s[1..];
      }
    }
  }

  /** Splitting a joined path of slash-free segments gives the segments back. */
  lemma {:induction false} SplitJoin(segs: seq<string>)
    requires |segs| >= 1
    requires forall i :: 0 <= i < |segs| ==> '/' !in segs[i]
    ensures Split(Join(segs)) == segs
    decreases |segs|, |segs[0]|
  {
    if |segs| == 1 {
      SplitSlashFree(segs[0]);
    } else {
      SplitJoin(segs[1..]);
      var t := "/" + Join(segs[1..]);
      SplitPrefix(segs[0], t);
      assert Join(segs) == segs[0] + t;
      assert Split(t) == [""] + segs[1..] by {
        assert t[1..] == Join(segs[1..]);
      }
      assert segs[0] + "" == segs[0];
      assert ([""] + segs[1..])[1..] == segs[1..];
      assert [segs[0]] + segs[1..] == segs;
    }
  }

  /** A name with no slash is a single segment. */
  lemma {:induction false} SplitSlashFree(s: string)
    requires '/' !in s
    ensures Split(s) == [s]
    decreases |s|
  {
    if s != [] {
      assert '/' !in s[1..] by {
        forall c | c in s[1..] ensures c in s { }
      }
      SplitSlashFree(s[1..]);
      assert s == [s[0]] + s[1..];
    }
  }

  /** A slash-free prefix becomes part of the first segment. */
  lemma {:induction false} SplitPrefix(p: string, t: string)
    requires '/' !in p
    ensures Split(p + t) == [p + Split(t)[0]] + Split(t)[1..]
    decreases |p|
  {
    if p != [] {
      assert '/' !in p[1..] by {
        forall c | c in p[1..] ensures c in p { }
      }
      SplitPrefix(p[1..], t);
      assert (p + t)[1..] == p[1..] + t;
      assert (p + t)[0] == p[0];
      assert [p[0]] + (p[1..] + Split(t)[0]) == p + Split(t)[0];
    } else {
      assert p + t == t;
      assert p + Split(t)[0] == Split(t)[0];
      assert [Split(t)[0]] + Split(t)[1..] == Split(t);
    }
  }
}
