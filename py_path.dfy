/** The POSIX `os.path` helpers the asset scripts use, as string functions:
    `splitext`, `join` (of two parts), `dirname` and `basename`. */
module PyPath {

  /** `s.rfind(c)`: the last index of `c` in `s`, or -1. */
  function LastIndexOf(s: string, c: char): (r: int)
    ensures -1 <= r < |s|
    ensures r >= 0 ==> s[r] == c
  {
    if s == [] then -1
    else if s[|s| - 1] == c then |s| - 1
    else LastIndexOf(s[..|s| - 1], c)
  }

  /** No `c` follows the last one. */
  lemma {:induction false} LastIndexOfIsLast(s: string, c: char)
    ensures c !in s[LastIndexOf(s, c) + 1..]
  {
    if s != [] && s[|s| - 1] != c {
      var init := s[..|s| - 1];
      LastIndexOfIsLast(init, c);
      var k := LastIndexOf(init, c) + 1;
      assert LastIndexOf(s, c) + 1 == k;
      assert c !in init[k..];
      assert s[k..] == init[k..] + [s[|s| - 1]];
    } else if s != [] {
      assert s[|s|..] == [];
    }
  }

  /** The last `c` of a concatenation is in its second part if that part has one. */
  lemma {:induction false} LastIndexOfConcat(a: string, b: string, c: char)
    ensures LastIndexOf(a + b, c) ==
      if LastIndexOf(b, c) >= 0 then |a| + LastIndexOf(b, c) else LastIndexOf(a, c)
  {
    if b == [] {
      assert a + b == a;
    } else {
      assert (a + b)[..|a + b| - 1] == a + b[..|b| - 1];
      LastIndexOfConcat(a, b[..|b| - 1], c);
    }
  }

  predicate AllSlashes(s: string) {
    forall i :: 0 <= i < |s| ==> s[i] == '/'
  }

  /** `s.rstrip('/')` */
  function RStripSlashes(s: string): (r: string)
    ensures |r| <= |s| && r == s[..|r|]
    ensures forall i :: |r| <= i < |s| ==> s[i] == '/'
    ensures r == [] || r[|r| - 1] != '/'
  {
    if s != [] && s[|s| - 1] == '/' then
      var r := RStripSlashes(s[..|s| - 1]);
      assert s[..|s| - 1][..|r|] == s[..|r|];
      r
    else s
  }

  /** `os.path.basename(p)`: the text after the last '/'. */
  function Basename(p: string): (r: string)
    ensures '/' !in r
    ensures |r| <= |p| && r == p[|p| - |r|..]
  {
    LastIndexOfIsLast(p, '/');
    p[LastIndexOf(p, '/') + 1..]
  }

  /** `os.path.dirname(p)`: the text up to the last '/', without trailing slashes unless
      it consists of slashes only. */
  function Dirname(p: string): (r: string)
    ensures r == [] || r[|r| - 1] != '/' || AllSlashes(r)
    ensures '/' !in p ==> r == []
  {
    var head := p[..LastIndexOf(p, '/') + 1];
    if head != [] && !AllSlashes(head) then RStripSlashes(head) else head
  }

  /** `os.path.join(a, b)`: an absolute `b` wins; otherwise a '/' is inserted unless `a`
      is empty or already ends with one. */
  function Join(a: string, b: string): (r: string)
    ensures |b| > 0 && b[0] == '/' ==> r == b
    ensures |b| <= |r| && r[|r| - |b|..] == b
    ensures !(|b| > 0 && b[0] == '/') ==>
      |r| == |a| + |b| + (if a != [] && a[|a| - 1] != '/' then 1 else 0) && r[..|a|] == a
    ensures !(|b| > 0 && b[0] == '/') && a != [] && a[|a| - 1] != '/' ==> r[|a|] == '/'
  {
    if |b| > 0 && b[0] == '/' then b
    else if a == [] || a[|a| - 1] == '/' then a + b
    else a + "/" + b
  }

  /** Some character of `s` is not a '.'. */
  predicate HasNonDot(s: string) {
    s != [] && (s[|s| - 1] != '.' || HasNonDot(s[..|s| - 1]))
  }

  /** The last path part of `s` (the text after its last '/') has a character other
      than '.'. */
  predicate LastPartHasNonDot(s: string) {
    s != [] && s[|s| - 1] != '/' && (s[|s| - 1] != '.' || LastPartHasNonDot(s[..|s| - 1]))
  }

  /** Where the extension of `p` starts, `|p|` when it has none. Scanning back from the
      end of the last path part, the first '.' found starts the extension, provided a
      character other than '.' precedes it in that part (leading dots do not start an
      extension). */
  function ExtStart(p: string): (r: nat)
    ensures r <= |p|
  {
    if p == [] then 0
    else
      var init := p[..|p| - 1];
      var c := p[|p| - 1];
      if c == '/' then |p|
      else if c == '.' then (if LastPartHasNonDot(init) then |p| - 1 else |p|)
      else if ExtStart(init) < |init| then ExtStart(init) else |p|
  }

  /** `os.path.splitext(p)`: the root and the extension. */
  function SplitExt(p: string): (r: (string, string))
    ensures r.0 + r.1 == p
  {
    (p[..ExtStart(p)], p[ExtStart(p)..])
  }

  lemma {:induction false} LastPartHasNonDotRfind(s: string)
    ensures LastPartHasNonDot(s) == HasNonDot(s[LastIndexOf(s, '/') + 1..])
  {
    if s != [] {
      var init := s[..|s| - 1];
      var c := s[|s| - 1];
      if c == '/' {
        assert s[LastIndexOf(s, '/') + 1..] == [];
      } else {
        var k := LastIndexOf(init, '/');
        assert LastIndexOf(s, '/') == k;
        var part := s[k + 1..];
        assert part == init[k + 1..] + [c];
        assert part[..|part| - 1] == init[k + 1..];
        if c == '.' {
          LastPartHasNonDotRfind(init);
          assert HasNonDot(part) == HasNonDot(init[k + 1..]);
        } else {
          assert HasNonDot(part);
        }
      }
    }
  }

  /** The scan agrees with the library's own algorithm: take the last '/' and the last
      '.'; the extension starts at that dot when it lies after the slash and a character
      other than '.' lies between them. */
  lemma {:induction false} ExtStartIsRfind(p: string)
    ensures ExtStart(p) ==
      var sep := LastIndexOf(p, '/');
      var dot := LastIndexOf(p, '.');
      if dot > sep && HasNonDot(p[sep + 1..dot]) then dot else |p|
  {
    if p != [] {
      var init := p[..|p| - 1];
      var c := p[|p| - 1];
      var sep := LastIndexOf(p, '/');
      var dot := LastIndexOf(p, '.');
      if c == '/' {
        assert sep == |p| - 1;
      } else if c == '.' {
        assert dot == |p| - 1;
        assert sep == LastIndexOf(init, '/');
        assert p[sep + 1..dot] == init[LastIndexOf(init, '/') + 1..];
        LastPartHasNonDotRfind(init);
      } else {
        assert sep == LastIndexOf(init, '/') && dot == LastIndexOf(init, '.');
        ExtStartIsRfind(init);
        if dot > sep {
          SliceOfInit(p, sep + 1, dot);
        }
      }
    }
  }

  lemma SliceOfInit(p: string, i: nat, j: nat)
    requires i <= j < |p|
    ensures p[i..j] == p[..|p| - 1][i..j]
  {
  }

  /** A non-empty extension starts with '.' and holds no '/'. */
  lemma {:induction false} ExtShape(p: string)
    ensures SplitExt(p).1 == [] || SplitExt(p).1[0] == '.'
    ensures '/' !in SplitExt(p).1
  {
    if p != [] {
      var init := p[..|p| - 1];
      var c := p[|p| - 1];
      if c != '/' && c != '.' && ExtStart(init) < |init| {
        ExtShape(init);
        assert p[ExtStart(p)..] == init[ExtStart(init)..] + [c];
      }
    }
  }

  /** The prefix a join puts before its second part. */
  function JoinPrefix(a: string, b: string): (r: string)
    ensures r == [] || r[|r| - 1] == '/'
    ensures (|b| > 0 && b[0] == '/') || Join(a, b) == r + b
  {
    if |b| > 0 && b[0] == '/' then []
    else if a == [] || a[|a| - 1] == '/' then a
    else a + "/"
  }

  /** Joining a name without '/' onto a directory gives a path whose last part is that name. */
  lemma BasenameJoin(d: string, n: string)
    requires '/' !in n
    ensures Basename(Join(d, n)) == n
  {
    var pre := JoinPrefix(d, n);
    LastIndexOfConcat(pre, n, '/');
    assert (pre + n)[|pre|..] == n;
  }

  /** A name with no '/' after a prefix that is empty or ends with '/' is a path part
      of its own. */
  lemma {:induction false} ExtStartAfterSlash(pre: string, n: string)
    requires pre == [] || pre[|pre| - 1] == '/'
    requires '/' !in n
    ensures ExtStart(pre + n) == |pre| + ExtStart(n)
    ensures LastPartHasNonDot(pre + n) == LastPartHasNonDot(n)
  {
    if n == [] {
      assert pre + n == pre;
    } else {
      var n' := n[..|n| - 1];
      assert (pre + n)[..|pre + n| - 1] == pre + n';
      ExtStartAfterSlash(pre, n');
    }
  }

  /** ... and the extension of the joined path is the name's own extension. */
  lemma SplitExtJoin(d: string, n: string)
    requires '/' !in n
    ensures SplitExt(Join(d, n)).1 == SplitExt(n).1
  {
    var pre := JoinPrefix(d, n);
    assert Join(d, n) == pre + n;
    ExtStartAfterSlash(pre, n);
    assert (pre + n)[|pre| + ExtStart(n)..] == n[ExtStart(n)..];
  }

  /** Splitting a name without '/' and joining it onto a directory. */
  lemma BasenameJoinSplit(d: string, n: string)
    requires '/' !in n
    ensures Basename(Join(d, n)) == SplitExt(n).0 + SplitExt(Join(d, n)).1
  {
    BasenameJoin(d, n);
    SplitExtJoin(d, n);
  }

  /** The directory of a name without '/' placed after a prefix that is empty or ends
      with '/' is that prefix, trailing slashes removed unless it is all slashes. */
  lemma DirnameAfterPrefix(pre: string, n: string)
    requires pre == [] || pre[|pre| - 1] == '/'
    requires '/' !in n
    ensures Dirname(pre + n) == if pre != [] && !AllSlashes(pre) then RStripSlashes(pre) else pre
  {
    LastIndexOfConcat(pre, n, '/');
    assert (pre + n)[..|pre|] == pre;
  }

  /** Replacing the last part of a directory name keeps the directory. */
  lemma DirnameJoin(p: string, n: string)
    requires '/' !in n
    ensures Dirname(Join(Dirname(p), n)) == Dirname(p)
  {
    var d := Dirname(p);
    var pre := JoinPrefix(d, n);
    DirnameAfterPrefix(pre, n);
    if d != [] && d[|d| - 1] != '/' {
      assert pre == d + "/";
      assert !AllSlashes(pre) by { assert pre[|d| - 1] != '/'; }
      assert RStripSlashes(pre) == RStripSlashes(d) by { assert pre[..|d|] == d; }
    }
  }

  /** Dropping the one '/' after a text that does not end with '/'. */
  lemma RStripOneSlash(t: string)
    requires t != [] && t[|t| - 1] != '/'
    ensures !AllSlashes(t + "/")
    ensures RStripSlashes(t + "/") == t
  {
    assert (t + "/")[..|t|] == t;
    assert (t + "/")[|t| - 1] == t[|t| - 1];
  }

  /** Joining `sub/n` is joining `sub` and then appending `/n`, and the result is longer
      than `d`, for a relative `sub` without '/'. */
  lemma JoinNested(d: string, sub: string, n: string)
    requires sub != [] && '/' !in sub
    ensures Join(d, sub + "/" + n) == (Join(d, sub) + "/") + n
    ensures |Join(d, sub)| > |d|
    ensures Join(d, sub)[|Join(d, sub)| - 1] != '/'
  {
    assert sub[0] in sub && sub[|sub| - 1] in sub;
    var pre0 := JoinPrefix(d, sub);
    assert (sub + "/" + n)[0] == sub[0];
    assert pre0 + (sub + "/" + n) == (pre0 + sub + "/") + n;
  }

  /** A name `sub/n` joined onto `d` lands in the sub-directory `sub` of `d`. */
  lemma DirnameNested(d: string, sub: string, n: string)
    requires sub != [] && '/' !in sub && '/' !in n
    ensures Dirname(Join(d, sub + "/" + n)) == Join(d, sub)
    ensures Dirname(Join(d, sub + "/" + n)) != d
  {
    var t := Join(d, sub);
    JoinNested(d, sub, n);
    DirnameAfterPrefix(t + "/", n);
    RStripOneSlash(t);
  }
}
