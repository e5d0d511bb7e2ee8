/** The few functions of Go's `strings` package that the generator calls,
    on Go strings as byte sequences: every element of a `string` here stands
    for one byte of the Go string, indexed and counted as Go's `s[i]` and
    `len(s)` do. Case mapping is ASCII only. A Dafny `char` can exceed 0xFF;
    strings holding such elements have no Go counterpart. */
module GoStrings {

  /** `sub` occurs in `s` starting at byte offset `i`. */
  predicate At(s: string, sub: string, i: int)
  {
    0 <= i && i + |sub| <= |s| && s[i..i + |sub|] == sub
  }

  /** strings.Contains */
  predicate Contains(s: string, sub: string)
  {
    exists i :: 0 <= i <= |s| - |sub| && At(s, sub, i)
  }

  /** strings.HasPrefix */
  predicate HasPrefix(s: string, prefix: string)
  {
    |prefix| <= |s| && s[..|prefix|] == prefix
  }

  /** strings.HasSuffix, the test strings.TrimSuffix makes */
  predicate HasSuffix(s: string, suffix: string)
  {
    |suffix| <= |s| && s[|s| - |suffix|..] == suffix
  }

  /** strings.TrimPrefix: drops `prefix` once if `s` starts with it. */
  function TrimPrefix(s: string, prefix: string): (r: string)
    ensures HasPrefix(s, prefix) ==> prefix + r == s
    ensures !HasPrefix(s, prefix) ==> r == s
  {
    if HasPrefix(s, prefix) then s[|prefix|..] else s
  }

  /** strings.TrimSuffix: drops `suffix` once if `s` ends with it. */
  function TrimSuffix(s: string, suffix: string): (r: string)
    ensures HasSuffix(s, suffix) ==> r + suffix == s
    ensures !HasSuffix(s, suffix) ==> r == s
  {
    if HasSuffix(s, suffix) then s[..|s| - |suffix|] else s
  }

  /** strings.Repeat(" ", n); a negative count, on which Go panics, is
      excluded by the type of `n`. */
  function Spaces(n: nat): (r: string)
    ensures |r| == n
    ensures forall i :: 0 <= i < n ==> r[i] == ' '
  {
    seq(n, _ => ' ')
  }

  /** ASCII lower-casing of one byte. */
  function LowerByte(c: char): char
  {
    if 'A' <= c <= 'Z' then (c as int + 32) as char else c
  }

  /** ASCII upper-casing of one byte: `c -= 'a' - 'A'` on 'a'..'z'. */
  function UpperByte(c: char): char
  {
    if 'a' <= c <= 'z' then (c as int - 32) as char else c
  }

  /** strings.ToLower, restricted to ASCII. */
  function ToLower(s: string): (r: string)
    ensures |r| == |s|
    ensures forall i :: 0 <= i < |s| ==> r[i] == LowerByte(s[i])
  {
    seq(|s|, i requires 0 <= i < |s| => LowerByte(s[i]))
  }

  /** strings.ToUpper, restricted to ASCII. */
  function ToUpper(s: string): (r: string)
    ensures |r| == |s|
    ensures forall i :: 0 <= i < |s| ==> r[i] == UpperByte(s[i])
  {
    seq(|s|, i requires 0 <= i < |s| => UpperByte(s[i]))
  }

  /** Number of occurrences of byte `c` in `s`. */
  function Count(c: char, s: string): nat
  {
    if s == [] then 0 else Count(c, s[..|s| - 1]) + (if s[|s| - 1] == c then 1 else 0)
  }

  /** Lower-casing forgets any earlier upper-casing. */
  lemma LowerOfUpper(s: string)
    ensures ToLower(ToUpper(s)) == ToLower(s)
  {
    assert forall i :: 0 <= i < |s| ==> LowerByte(UpperByte(s[i])) == LowerByte(s[i]);
  }

  /** Lower-casing works byte by byte, so it distributes over concatenation. */
  lemma LowerAppend(a: string, b: string)
    ensures ToLower(a + b) == ToLower(a) + ToLower(b)
  {
    var l, r := ToLower(a + b), ToLower(a) + ToLower(b);
    forall i | 0 <= i < |l| ensures l[i] == r[i] {
      if i < |a| {
        assert (a + b)[i] == a[i];
      } else {
        assert (a + b)[i] == b[i - |a|];
      }
    }
  }

  /** A string occurs inside any concatenation that has it in the middle. */
  lemma AtMiddle(a: string, b: string, c: string)
    ensures At(a + b + c, b, |a|)
    ensures Contains(a + b + c, b)
  {
    assert (a + b + c)[|a|..|a| + |b|] == b;
    assert At(a + b + c, b, |a|);
  }

  /** Containment survives appending on either side. */
  lemma ContainsExtend(s: string, sub: string, pre: string, post: string)
    requires Contains(s, sub)
    ensures Contains(pre + s + post, sub)
  {
    var i :| 0 <= i <= |s| - |sub| && At(s, sub, i);
    assert (pre + s + post)[|pre| + i..|pre| + i + |sub|] == s[i..i + |sub|];
    assert At(pre + s + post, sub, |pre| + i);
  }

  /** Containment is transitive. */
  lemma ContainsTransitive(s: string, mid: string, sub: string)
    requires Contains(s, mid) && Contains(mid, sub)
    ensures Contains(s, sub)
  {
    var i :| 0 <= i <= |s| - |mid| && At(s, mid, i);
    var j :| 0 <= j <= |mid| - |sub| && At(mid, sub, j);
    forall k | 0 <= k < |sub| ensures s[i + j + k] == sub[k] {
      assert sub[k] == mid[j..j + |sub|][k] == mid[j + k];
      assert mid[j + k] == s[i..i + |mid|][j + k] == s[i + j + k];
    }
    assert s[i + j..i + j + |sub|] == sub;
    assert At(s, sub, i + j);
  }

  /** A string that holds a byte cannot occur in one that lacks it. */
  lemma ContainsKeepsBytes(s: string, sub: string, c: char)
    requires c in sub && c !in s
    ensures !Contains(s, sub)
  {
    forall i | 0 <= i <= |s| - |sub|
      ensures !At(s, sub, i)
    {
      var k :| 0 <= k < |sub| && sub[k] == c;
      assert s[i..i + |sub|][k] == s[i + k];
    }
  }

  // Concatenation: facts proved once over variables, so that callers never
  // regroup long literals.

  /** Containment survives appending. */
  lemma ContainsAppend(s: string, sub: string, t: string)
    requires Contains(s, sub)
    ensures Contains(s + t, sub)
  {
    var i :| 0 <= i <= |s| - |sub| && At(s, sub, i);
    assert (s + t)[i..i + |sub|] == s[i..i + |sub|];
    assert At(s + t, sub, i);
  }

  /** The last piece of a concatenation occurs in it. */
  lemma ContainsLast(w: string, x: string)
    ensures Contains(w + x, x)
  {
    AtMiddle(w, x, "");
    assert w + x + "" == w + x;
  }

  /** Three consecutive pieces, the first cut to its suffix `pre` and the
      last to its prefix `post`, occur together. */
  lemma ContainsWindow3(w: string, x: string, y: string, z: string, pre: string, post: string)
    requires HasSuffix(x, pre) && HasPrefix(z, post)
    ensures Contains(w + x + y + z, pre + y + post)
  {
    var w' := w + x[..|x| - |pre|];
    assert x == x[..|x| - |pre|] + pre;
    assert z == post + z[|post|..];
    assert w + x + y + z == w' + (pre + y + post) + z[|post|..];
    AtMiddle(w', pre + y + post, z[|post|..]);
  }

  /** Five consecutive pieces, the first cut to its suffix `pre` and the
      last to its prefix `post`, occur together. */
  lemma ContainsWindow5(w: string, x: string, y: string, z: string, u: string, v: string,
                        pre: string, post: string)
    requires HasSuffix(x, pre) && HasPrefix(v, post)
    ensures Contains(w + x + y + z + u + v, pre + y + z + u + post)
  {
    var w' := w + x[..|x| - |pre|];
    assert x == x[..|x| - |pre|] + pre;
    assert v == post + v[|post|..];
    assert w + x + y + z + u + v == w' + (pre + y + z + u + post) + v[|post|..];
    AtMiddle(w', pre + y + z + u + post, v[|post|..]);
  }

  /** `a` and `b` are equal except that `a` holds `x` where `b` holds `y`. */
  predicate DifferOnlyIn(a: string, b: string, x: string, y: string)
  {
    exists k :: 0 <= k <= |a| && At(a, x, k) && At(b, y, k) && a[..k] == b[..k] && a[k + |x|..] == b[k + |y|..]
  }

  /** An occurrence splits its string into three parts. */
  lemma AtSplits(a: string, c: string, k: int)
    requires At(a, c, k)
    ensures a == a[..k] + c + a[k + |c|..]
  {
  }

  lemma DifferOnlyInMiddle(pre: string, x: string, y: string, post: string)
    ensures DifferOnlyIn(pre + x + post, pre + y + post, x, y)
  {
    AtMiddle(pre, x, post);
    AtMiddle(pre, y, post);
    assert (pre + x + post)[..|pre|] == pre == (pre + y + post)[..|pre|];
    assert (pre + x + post)[|pre| + |x|..] == post == (pre + y + post)[|pre| + |y|..];
  }

  /** A difference confined to `x`/`y` inside a difference confined to
      `c`/`d` is confined to `x`/`y`. */
  lemma DifferOnlyInNested(a: string, b: string, c: string, d: string, x: string, y: string)
    requires DifferOnlyIn(a, b, c, d) && DifferOnlyIn(c, d, x, y)
    ensures DifferOnlyIn(a, b, x, y)
  {
    var k :| 0 <= k <= |a| && At(a, c, k) && At(b, d, k) && a[..k] == b[..k] && a[k + |c|..] == b[k + |d|..];
    var m :| 0 <= m <= |c| && At(c, x, m) && At(d, y, m) && c[..m] == d[..m] && c[m + |x|..] == d[m + |y|..];
    AtSplits(a, c, k);
    AtSplits(b, d, k);
    AtSplits(c, x, m);
    AtSplits(d, y, m);
    NestedSplit(a, b, c, d, x, y, a[..k], a[k + |c|..], c[..m], c[m + |x|..]);
  }

  lemma NestedSplit(a: string, b: string, c: string, d: string, x: string, y: string,
                    p: string, q: string, r: string, t: string)
    requires a == p + c + q && b == p + d + q
    requires c == r + x + t && d == r + y + t
    ensures DifferOnlyIn(a, b, x, y)
  {
    assert a == (p + r) + x + (t + q);
    assert b == (p + r) + y + (t + q);
    DifferOnlyInMiddle(p + r, x, y, t + q);
  }
}
