/** Slash-separated path strings and their component lists. */
module PathText {
  import opened Ordering

  /** `str::split('/')`: always at least one piece. */
  function Split(s: string): (r: seq<string>)
    ensures |r| > 0
  {
    if s == "" then [""]
    else
      var rest := Split(s[1..]);
      if s[0] == '/' then [""] + rest else [[s[0]] + rest[0]] + rest[1..]
  }

  /** `parts.join("/")` */
  function Join(parts: seq<string>): string
  {
    if |parts| == 0 then ""
    else if |parts| == 1 then parts[0]
    else parts[0] + "/" + Join(parts[1..])
  }

  predicate SlashFree(s: string)
  {
    '/' !in s
  }

  predicate AllSlashFree(parts: seq<string>)
  {
    forall i :: 0 <= i < |parts| ==> SlashFree(parts[i])
  }

  lemma {:induction false} JoinSplit(s: string)
    ensures Join(Split(s)) == s && AllSlashFree(Split(s))
  {
    if s != "" {
      JoinSplit(s[1..]);
      var rest := Split(s[1..]);
      if s[0] == '/' {
        assert ([""] + rest)[1..] == rest;
        assert "" + "/" + Join(rest) == s;
      } else {
        var r := [[s[0]] + rest[0]] + rest[1..];
        assert r[1..] == rest[1..];
        if |rest| == 1 {
          assert Join(r) == [s[0]] + rest[0] == s;
        } else {
          assert Join(r) == ([s[0]] + rest[0]) + "/" + Join(rest[1..]);
          assert Join(rest) == rest[0] + "/" + Join(rest[1..]);
          assert Join(r) == [s[0]] + s[1..];
        }
      }
    }
  }

  lemma {:induction false} SplitPiece(x: string)
    requires SlashFree(x)
    ensures Split(x) == [x]
  {
    if x != "" {
      SplitPiece(x[1..]);
      assert [x[0]] + x[1..] == x;
    }
  }

  lemma {:induction false} SplitFront(x: string, t: string)
    requires SlashFree(x)
    ensures Split(x + "/" + t) == [x] + Split(t)
  {
    var s := x + "/" + t;
    if x == "" {
      assert s[1..] == t;
    } else {
      SplitFront(x[1..], t);
      assert s[1..] == x[1..] + "/" + t;
      assert [x[0]] + x[1..] == x;
    }
  }

  lemma {:induction false} SplitJoin(parts: seq<string>)
    requires parts != [] && AllSlashFree(parts)
    ensures Split(Join(parts)) == parts
    decreases |parts|
  {
    if |parts| == 1 {
      SplitPiece(parts[0]);
    } else {
      SplitJoin(parts[1..]);
      SplitFront(parts[0], Join(parts[1..]));
    }
  }

  lemma {:induction false} JoinExtends(a: seq<string>, b: seq<string>)
    requires a != [] && b != []
    ensures Join(a + b) == Join(a) + "/" + Join(b)
    decreases |a|
  {
    assert (a + b)[1..] == a[1..] + b;
    if |a| == 1 {
      assert a[1..] + b == b;
    } else {
      JoinExtends(a[1..], b);
    }
  }

  /** A directory's path string sorts before the path string of anything inside it. */
  lemma InsideSortsAfter(outer: string, inner: string)
    requires Split(outer) < Split(inner)
    ensures Less(outer, inner)
  {
    JoinSplit(outer);
    JoinSplit(inner);
    var (a, b) := (Split(outer), Split(inner)[|Split(outer)|..]);
    assert Split(inner) == a + b;
    JoinExtends(a, b);
    assert outer < inner;
    PrefixIsLess(outer, inner);
  }
}
