/**
 * Character-level helpers the query layer relies on: Python's notion of
 * whitespace and `str.strip()`, `str.split(',')` with its inverse, and the
 * code-point lexicographic order used to sort names.
 */
module Text {
  import opened Base

  /** Python's `str.isspace()` on a single character (the full Unicode list). */
  predicate IsSpace(c: char)
  {
    || ('\t' <= c <= '\r')
    || ('\U{1C}' <= c <= '\U{1F}')
    || c == ' ' || c == '\U{85}' || c == '\U{A0}' || c == '\U{1680}'
    || ('\U{2000}' <= c <= '\U{200A}')
    || c == '\U{2028}' || c == '\U{2029}' || c == '\U{202F}' || c == '\U{205F}' || c == '\U{3000}'
  }

  /** `s` with its leading characters of the class `sp` removed (`str.lstrip()` when `sp` is
      `IsSpace`). */
  function TrimLeft(s: string, sp: char -> bool): (r: string)
    ensures |r| <= |s| && r == s[|s| - |r|..]
    ensures r == [] || !sp(r[0])
    ensures forall i :: 0 <= i < |s| - |r| ==> sp(s[i])
  {
    if s != [] && sp(s[0]) then TrimLeft(s[1..], sp) else s
  }

  /** `s` with its trailing characters of the class `sp` removed. */
  function TrimRight(s: string, sp: char -> bool): (r: string)
    ensures |r| <= |s| && r == s[..|r|]
    ensures r == [] || !sp(r[|r| - 1])
    ensures forall i :: |r| <= i < |s| ==> sp(s[i])
  {
    if s != [] && sp(s[|s| - 1]) then TrimRight(s[..|s| - 1], sp) else s
  }

  /** Drop characters of the class `sp` at both ends. */
  function Trim(s: string, sp: char -> bool): string
  {
    TrimRight(TrimLeft(s, sp), sp)
  }

  /** Python's `str.strip()`: drop whitespace at both ends. */
  function Strip(s: string): string
  {
    Trim(s, IsSpace)
  }

  /** A trimmed string neither starts nor ends with a character of the class. */
  lemma TrimEnds(s: string, sp: char -> bool)
    ensures var t := Trim(s, sp); t == [] || (!sp(t[0]) && !sp(t[|t| - 1]))
  {
    var l := TrimLeft(s, sp);
    var r := TrimRight(l, sp);
    if r != [] {
      assert r[0] == l[0];
    }
  }

  /** Trimming is idempotent. */
  lemma TrimIdempotent(s: string, sp: char -> bool)
    ensures Trim(Trim(s, sp), sp) == Trim(s, sp)
  {
    var r := Trim(s, sp);
    TrimEnds(s, sp);
    if r != [] {
      assert TrimLeft(r, sp) == r;
      assert TrimRight(r, sp) == r;
    }
  }

  /** A string with no character of the class at either end is its own trimming. */
  lemma TrimNoOp(s: string, sp: char -> bool)
    requires s == [] || (!sp(s[0]) && !sp(s[|s| - 1]))
    ensures Trim(s, sp) == s
  {
  }

  /** Trimming `pre + t + post` where only `pre` and `post` consist of the class gives `t`. */
  lemma TrimAround(pre: string, t: string, post: string, sp: char -> bool)
    requires forall i :: 0 <= i < |pre| ==> sp(pre[i])
    requires forall i :: 0 <= i < |post| ==> sp(post[i])
    requires t == [] || (!sp(t[0]) && !sp(t[|t| - 1]))
    requires t == [] ==> pre == [] && post == []
    ensures Trim(pre + t + post, sp) == t
  {
    TrimLeftPrefix(pre, t + post, sp);
    AppendAssoc(pre, t, post);
    TrimRightSuffix(t, post, sp);
  }

  lemma {:induction false} TrimLeftPrefix(pre: string, u: string, sp: char -> bool)
    requires forall i :: 0 <= i < |pre| ==> sp(pre[i])
    requires u == [] || !sp(u[0])
    ensures TrimLeft(pre + u, sp) == u
  {
    if pre != [] {
      assert (pre + u)[1..] == pre[1..] + u;
      TrimLeftPrefix(pre[1..], u, sp);
    }
  }

  lemma {:induction false} TrimRightSuffix(u: string, post: string, sp: char -> bool)
    requires forall i :: 0 <= i < |post| ==> sp(post[i])
    requires u == [] || !sp(u[|u| - 1])
    ensures TrimRight(u + post, sp) == u
  {
    if post != [] {
      var init := post[..|post| - 1];
      assert (u + post)[..|u + post| - 1] == u + init;
      TrimRightSuffix(u, init, sp);
    } else {
      AppendEmpty(u);
    }
  }

  /** Trimming removes only characters of the class: every other character of the input survives. */
  lemma TrimKeeps(s: string, sp: char -> bool, c: char)
    requires !sp(c)
    ensures c in Trim(s, sp) <==> c in s
  {
    TrimLeftKeeps(s, sp, c);
    TrimRightKeeps(TrimLeft(s, sp), sp, c);
  }

  lemma {:induction false} TrimLeftKeeps(s: string, sp: char -> bool, c: char)
    requires !sp(c)
    ensures c in TrimLeft(s, sp) <==> c in s
  {
    if s != [] && sp(s[0]) {
      assert s == [s[0]] + s[1..];
      TrimLeftKeeps(s[1..], sp, c);
    }
  }

  lemma {:induction false} TrimRightKeeps(s: string, sp: char -> bool, c: char)
    requires !sp(c)
    ensures c in TrimRight(s, sp) <==> c in s
  {
    if s != [] && sp(s[|s| - 1]) {
      assert s == s[..|s| - 1] + [s[|s| - 1]];
      TrimRightKeeps(s[..|s| - 1], sp, c);
    }
  }

  // ---------------------------------------------------------------- order

  /**
   * Lexicographic order on code points: `a` comes no later than `b`.
   * (Dafny's own `<=` on sequences is the prefix order, so the order is spelled out.)
   */
  predicate LexLe(a: string, b: string)
  {
    a == [] || (b != [] && (a[0] < b[0] || (a[0] == b[0] && LexLe(a[1..], b[1..]))))
  }

  lemma {:induction false} LexLeReflexive(a: string)
    ensures LexLe(a, a)
  {
    if a != [] {
      LexLeReflexive(a[1..]);
    }
  }

  lemma {:induction false} LexLeTotal(a: string, b: string)
    ensures LexLe(a, b) || LexLe(b, a)
  {
    if a != [] && b != [] && a[0] == b[0] {
      LexLeTotal(a[1..], b[1..]);
    }
  }

  lemma {:induction false} LexLeAntisymmetric(a: string, b: string)
    requires LexLe(a, b) && LexLe(b, a)
    ensures a == b
  {
    if a != [] && b != [] {
      LexLeAntisymmetric(a[1..], b[1..]);
      assert a == [a[0]] + a[1..] && b == [b[0]] + b[1..];
    }
  }

  lemma {:induction false} LexLeTransitive(a: string, b: string, c: string)
    requires LexLe(a, b) && LexLe(b, c)
    ensures LexLe(a, c)
  {
    if a != [] && b != [] && c != [] && a[0] == b[0] == c[0] {
      LexLeTransitive(a[1..], b[1..], c[1..]);
    }
  }

  // ---------------------------------------------------------------- split / join

  /** Number of occurrences of `c` in `s`. */
  function Count(s: string, c: char): nat
  {
    if s == [] then 0 else (if s[0] == c then 1 else 0) + Count(s[1..], c)
  }

  /** Python's `s.split(',')`: the pieces between commas, in order, empty pieces included. */
  function Split(s: string): (r: seq<string>)
    ensures |r| >= 1
  {
    if s == [] then [""]
    else if s[0] == ',' then [""] + Split(s[1..])
    else
      var rest := Split(s[1..]);
      [[s[0]] + rest[0]] + rest[1..]
  }

  /** `','.join(ts)`. */
  function Join(ts: seq<string>): string
  {
    if ts == [] then "" else if |ts| == 1 then ts[0] else ts[0] + "," + Join(ts[1..])
  }

  /** Splitting yields one more piece than there are commas, and no piece holds a comma. */
  lemma {:induction false} SplitShape(s: string)
    ensures |Split(s)| == Count(s, ',') + 1
    ensures forall i :: 0 <= i < |Split(s)| ==> ',' !in Split(s)[i]
  {
    if s != [] {
      SplitShape(s[1..]);
    }
  }

  /** Prefixing the first piece with a character prefixes the join with it. */
  lemma JoinPrepend(c: char, ts: seq<string>)
    requires |ts| >= 1
    ensures Join([[c] + ts[0]] + ts[1..]) == [c] + Join(ts)
  {
    var us := [[c] + ts[0]] + ts[1..];
    if |ts| > 1 {
      assert us[1..] == ts[1..];
    }
  }

  /** A leading empty piece adds a leading comma to the join. */
  lemma JoinEmptyFirst(ts: seq<string>)
    requires |ts| >= 1
    ensures Join([""] + ts) == [','] + Join(ts)
  {
    assert ([""] + ts)[1..] == ts;
  }

  /** Joining the pieces back with commas restores the input. */
  lemma {:induction false} JoinSplit(s: string)
    ensures Join(Split(s)) == s
  {
    if s != [] {
      var rest := Split(s[1..]);
      JoinSplit(s[1..]);
      if s[0] == ',' {
        JoinEmptyFirst(rest);
      } else {
        JoinPrepend(s[0], rest);
      }
      assert s == [s[0]] + s[1..];
    }
  }

  lemma {:induction false} SplitPrepend(c: char, s: string)
    requires c != ','
    ensures Split([c] + s) == [[c] + Split(s)[0]] + Split(s)[1..]
  {
    assert ([c] + s)[1..] == s;
  }

  /** Splitting a piece with no comma, followed by a comma and more text. */
  lemma {:induction false} SplitAppend(t: string, rest: string)
    requires ',' !in t
    ensures Split(t + "," + rest) == [t] + Split(rest)
  {
    if t == [] {
      assert t + "," + rest == [','] + rest;
      assert ([','] + rest)[1..] == rest;
    } else {
      assert t + "," + rest == [t[0]] + (t[1..] + "," + rest);
      SplitAppend(t[1..], rest);
      SplitPrepend(t[0], t[1..] + "," + rest);
      assert [t[0]] + t[1..] == t;
    }
  }

  /** A piece with no comma splits to itself. */
  lemma {:induction false} SplitNoComma(t: string)
    requires ',' !in t
    ensures Split(t) == [t]
  {
    if t != [] {
      SplitNoComma(t[1..]);
      SplitPrepend(t[0], t[1..]);
      assert [t[0]] + t[1..] == t;
    }
  }

  /** Splitting a comma-join of comma-free pieces gives the pieces back. */
  lemma {:induction false} SplitJoin(ts: seq<string>)
    requires |ts| >= 1
    requires forall i :: 0 <= i < |ts| ==> ',' !in ts[i]
    ensures Split(Join(ts)) == ts
  {
    if |ts| == 1 {
      SplitNoComma(ts[0]);
    } else {
      SplitJoin(ts[1..]);
      SplitAppend(ts[0], Join(ts[1..]));
      assert ts == [ts[0]] + ts[1..];
    }
  }
}
