/** The string library the two trace converters rely on: `UtlString`, with its
    search, its copying and its two removals, over the specification functions
    the other modules reason with. */
module UtlStrings {

  // ----- Specification functions ---------------------------------------------

  /** `p` stands at position `i` of `s`. */
  predicate OccursAt(s: string, p: string, i: int) {
    0 <= i <= |s| - |p| && s[i..i + |p|] == p
  }

  /** `p` stands nowhere in `s`. */
  ghost predicate Free(s: string, p: string) {
    forall i :: !OccursAt(s, p, i)
  }

  /** The first position at or after `start` where `p` stands, or -1. */
  function IndexFrom(s: string, p: string, start: nat): (r: int)
    ensures r == -1 || (start <= r <= |s| && OccursAt(s, p, r))
    ensures forall i :: start <= i && (r == -1 || i < r) ==> !OccursAt(s, p, i)
    decreases |s| - start
  {
    if start > |s| - |p| then -1
    else if OccursAt(s, p, start) then start
    else IndexFrom(s, p, start + 1)
  }

  /** `remove(pos, n)`: an invalid position or length changes nothing, so a
      length past the end is ignored, not clipped. */
  function Removed(s: string, pos: nat, n: nat): string {
    if 0 < n && pos < |s| && n <= |s| - pos then s[..pos] + s[pos + n..] else s
  }

  /** Between what is kept lies what is removed; or it does not all lie in the string. */
  lemma RemovesRange(front: string, gone: string, back: string, n: nat)
    ensures Removed(front + gone + back, |front|, |gone|) == front + back
    ensures n > |gone + back| ==> Removed(front + gone + back, |front|, n) == front + gone + back
  {
    assert (front + gone + back)[..|front|] == front && (front + gone + back)[|front + gone|..] == back;
    assert gone == "" ==> front + gone + back == front + back;
  }

  /** A C string ends at its first NUL. */
  function CString(s: string): (r: string)
    ensures r <= s && '\0' !in r
    ensures r == s || s[|r|] == '\0'
    ensures '\0' !in s ==> r == s
  {
    if s == "" || s[0] == '\0' then "" else [s[0]] + CString(s[1..])
  }

  /** The text that arrives in pieces. */
  function Joined(chunks: seq<string>): string {
    if chunks == [] then "" else chunks[0] + Joined(chunks[1..])
  }

  // ----- Facts about searching -----------------------------------------------

  /** Where the first occurrence is determines the search result. */
  lemma IndexIsFirst(s: string, p: string, start: nat, at: nat)
    requires start <= at && OccursAt(s, p, at)
    requires forall i :: start <= i < at ==> !OccursAt(s, p, i)
    ensures IndexFrom(s, p, start) == at
  {
  }

  lemma OccursInPrefix(s: string, p: string, m: nat, i: int)
    requires m <= |s|
    ensures OccursAt(s[..m], p, i) <==> OccursAt(s, p, i) && i + |p| <= m
  {
    if 0 <= i <= m - |p| {
      assert s[..m][i..i + |p|] == s[i..i + |p|];
    }
  }

  lemma PrefixIsFree(s: string, p: string, m: nat)
    requires m <= |s| && Free(s, p)
    ensures Free(s[..m], p)
  {
    forall i ensures !OccursAt(s[..m], p, i) {
      OccursInPrefix(s, p, m, i);
    }
  }

  /** Searching a prefix finds the same first occurrence, or nothing when that
      occurrence is not complete yet. */
  lemma IndexInPrefix(s: string, p: string, start: nat, m: nat)
    requires m <= |s|
    ensures var r := IndexFrom(s, p, start);
            IndexFrom(s[..m], p, start) == if r != -1 && r + |p| <= m then r else -1
  {
    hide IndexFrom, OccursAt;
    var r := IndexFrom(s, p, start);
    forall i ensures OccursAt(s[..m], p, i) <==> OccursAt(s, p, i) && i + |p| <= m {
      OccursInPrefix(s, p, m, i);
    }
    if r != -1 && r + |p| <= m {
      IndexIsFirst(s[..m], p, start, r);
    }
  }

  /** Text in front of the place where the search starts is irrelevant. */
  lemma IndexAfter(a: string, s: string, p: string, start: nat)
    ensures var r := IndexFrom(s, p, start);
            IndexFrom(a + s, p, |a| + start) == if r == -1 then -1 else |a| + r
    decreases |s| - start
  {
    if start <= |s| - |p| {
      assert (a + s)[|a| + start..|a| + start + |p|] == s[start..start + |p|];
      IndexAfter(a, s, p, start + 1);
    }
  }

  /** The first `p` of `a + p + b` is the one after `a`, as soon as no earlier
      one starts in `a`, even one that runs into the `p` itself. */
  lemma FirstAfter(a: string, p: string, b: string)
    requires |p| > 0 && Free(a + p[..|p| - 1], p)
    ensures IndexFrom(a + p + b, p, 0) == |a|
  {
    var s := a + p + b;
    forall i | 0 <= i < |a| ensures !OccursAt(s, p, i) {
      var t := a + p[..|p| - 1];
      assert t == s[..|t|];
      if i <= |s| - |p| {
        assert t[i..i + |p|] == s[i..i + |p|];
        assert !OccursAt(t, p, i);
      }
    }
    assert s[|a|..|a| + |p|] == p;
    IndexIsFirst(s, p, 0, |a|);
  }

  /** A pattern whose last character stands nowhere in `q` cannot run from `a`
      into `q`: patterns without a border cannot overlap. */
  lemma NoStraddle(a: string, p: string, q: string)
    requires |p| > 0 && Free(a, p) && |q| < |p| && p[|p| - 1] !in q
    ensures Free(a + q, p)
  {
    forall i ensures !OccursAt(a + q, p, i) {
      if 0 <= i <= |a| - |p| {
        assert (a + q)[i..i + |p|] == a[i..i + |p|];
        assert !OccursAt(a, p, i);
      } else if 0 <= i <= |a| + |q| - |p| {
        assert (a + q)[i..i + |p|][|p| - 1] == q[i + |p| - 1 - |a|];
      }
    }
  }

  lemma LastCharacterMissing(s: string, p: string)
    requires |p| > 0 && p[|p| - 1] !in s
    ensures Free(s, p)
  {
    forall i ensures !OccursAt(s, p, i) {
      if 0 <= i <= |s| - |p| {
        assert s[i..i + |p|][|p| - 1] == s[i + |p| - 1];
      }
    }
  }

  lemma SliceOfJoin(a: string, b: string, i: nat, j: nat)
    requires i <= j <= |a|
    ensures (a + b)[i..j] == a[i..j] && (a + b)[..i] == a[..i] && (a + b)[j..] == a[j..] + b
  {
  }

  // ----- Comparing ----------------------------------------------------------

  /** `compareTo` is negative. */
  predicate Below(a: string, b: string) {
    b != "" && (a == "" || (if a[0] != b[0] then a[0] < b[0] else Below(a[1..], b[1..])))
  }

  lemma {:induction false} BelowIsTotal(a: string, b: string)
    ensures Below(a, b) || Below(b, a) || a == b
    ensures !(Below(a, b) && Below(b, a)) && (a == b ==> !Below(a, b))
    decreases |a|
  {
    if a != "" && b != "" && a[0] == b[0] {
      BelowIsTotal(a[1..], b[1..]);
      assert a == [a[0]] + a[1..] && b == [b[0]] + b[1..];
    }
  }

  lemma {:induction false} BelowIsTransitive(a: string, b: string, c: string)
    requires Below(a, b) && Below(b, c)
    ensures Below(a, c)
    decreases |a|
  {
    if a != "" && a[0] == b[0] == c[0] {
      BelowIsTransitive(a[1..], b[1..], c[1..]);
    }
  }

  lemma {:induction false} BelowBehind(p: string, a: string, b: string)
    ensures Below(p + a, p + b) <==> Below(a, b)
    decreases |p|
  {
    if p == "" {
      assert p + a == a && p + b == b;
    } else {
      assert (p + a)[1..] == p[1..] + a && (p + b)[1..] == p[1..] + b;
      BelowBehind(p[1..], a, b);
    }
  }

  lemma JoinThree(a: string, b: string, c: string)
    ensures a + b + c == a + (b + c)
  {
  }

  // ----- The class -----------------------------------------------------------

  class UtlString {
    var data: string

    constructor (s: string)
      ensures data == s
    {
      data := s;
    }

    /** The position of the first occurrence at or after `start`, or -1. */
    method Index(p: string, start: nat) returns (found: int)
      ensures found == IndexFrom(data, p, start)
    {
      found := -1;
      if |p| <= |data| {
        var pos := start;
        while pos <= |data| - |p| && found == -1
          invariant start <= pos
          invariant found == -1 ==> IndexFrom(data, p, start) == IndexFrom(data, p, pos)
          invariant found != -1 ==> found == IndexFrom(data, p, start)
          decreases |data| - pos
        {
          if data[pos..pos + |p|] == p {
            found := pos;
          }
          pos := pos + 1;
        }
      }
    }

    /** Append `n` characters of `source` from position `from`. A negative length
        or a range outside the source has no meaning in the original: `ok` is
        false then and nothing is appended. */
    method AppendRange(source: UtlString, from: int, n: int) returns (ok: bool)
      requires source != this
      modifies this
      ensures ok == (0 <= from && 0 <= n && from + n <= |source.data|)
      ensures data == if ok then old(data) + source.data[from..from + n] else old(data)
      ensures ok && old(data) == "" ==> data == source.data[from..from + n]
    {
      ok := 0 <= from && 0 <= n && from + n <= |source.data|;
      if ok && n > 0 {
        data := data + source.data[from..from + n];
      }
    }

    method Append(s: string)
      modifies this
      ensures data == old(data) + s
    {
      data := data + s;
    }

    /** `remove(pos)`: drop everything from `pos` on. */
    method Truncate(pos: nat)
      modifies this
      ensures data == if pos < |old(data)| then old(data)[..pos] else old(data)
      ensures pos == 0 ==> data == ""
    {
      if pos < |data| {
        data := data[..pos];
      }
    }

    /** `remove(pos, n)`. */
    method Remove(pos: nat, n: nat)
      modifies this
      ensures data == Removed(old(data), pos, n)
    {
      if n > 0 && pos < |data| && n <= |data| - pos {
        data := data[..pos] + data[pos + n..];
      }
    }
  }
}
