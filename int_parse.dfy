/**
 * `RecipeViewSet._params_to_ints`: a comma-separated query parameter turned
 * into a list of integers by `str.split(',')` and Python's `int()` on each
 * piece. `int()` on text accepts surrounding whitespace, one optional sign and
 * decimal digits in which single underscores may separate digits; anything
 * else raises `ValueError`, which the view does not catch.
 *
 * The whitespace `int()` skips is not quite `str.isspace()`: CPython maps
 * non-ASCII whitespace to a space, keeps ASCII characters as they are, and then
 * skips only the C locale's whitespace, so the four information separators
 * U+001C to U+001F, which `str.isspace()` counts, make `int()` fail.
 */
module IntParse {
  import opened Base
  import opened Text

  predicate IsDigit(c: char)
  {
    '0' <= c <= '9'
  }

  function DigitValue(c: char): (v: nat)
    requires IsDigit(c)
    ensures v < 10
  {
    (c as int) - ('0' as int)
  }

  function DigitChar(v: nat): (c: char)
    requires v < 10
    ensures IsDigit(c) && DigitValue(c) == v
  {
    (('0' as int) + v) as char
  }

  predicate IsDigitsOrUnderscores(d: string)
  {
    forall i :: 0 <= i < |d| ==> IsDigit(d[i]) || d[i] == '_'
  }

  /** Decimal digits, possibly with single underscores between two digits. */
  predicate IsDigitGroups(d: string)
  {
    && |d| > 0
    && IsDigit(d[0])
    && IsDigitsOrUnderscores(d)
    && forall i :: 0 <= i < |d| && d[i] == '_' ==> i + 1 < |d| && IsDigit(d[i + 1])
  }

  /** The number a run of digits and underscores denotes, underscores skipped. */
  function DigitsValue(d: string): nat
    requires IsDigitsOrUnderscores(d)
  {
    if d == [] then 0
    else
      var init := d[..|d| - 1];
      if d[|d| - 1] == '_' then DigitsValue(init)
      else 10 * DigitsValue(init) + DigitValue(d[|d| - 1])
  }

  /** `int()` on text already stripped of surrounding whitespace. */
  function ParseStripped(t: string): (r: Option<int>)
    ensures r.Some? ==> t != []
  {
    if |t| > 0 && (t[0] == '+' || t[0] == '-') then
      if IsDigitGroups(t[1..]) then
        var u: int := DigitsValue(t[1..]);
        Some(if t[0] == '-' then -u else u)
      else None
    else if IsDigitGroups(t) then Some(DigitsValue(t))
    else None
  }

  /** The whitespace `int()` skips around a number: `str.isspace()` without U+001C to U+001F. */
  predicate IsIntSpace(c: char)
  {
    IsSpace(c) && !('\U{1C}' <= c <= '\U{1F}')
  }

  /** Python's `int(token)` in base 10: `None` where Python raises `ValueError`. */
  function ParseInt(token: string): (r: Option<int>)
    ensures r.Some? ==> Trim(token, IsIntSpace) != []
  {
    ParseStripped(Trim(token, IsIntSpace))
  }

  /** `int()` skips surrounding whitespace other than the information separators. */
  lemma ParseIntSkipsSpace(pre: string, t: string, post: string)
    requires forall i :: 0 <= i < |pre| ==> IsIntSpace(pre[i])
    requires forall i :: 0 <= i < |post| ==> IsIntSpace(post[i])
    requires t != [] && !IsIntSpace(t[0]) && !IsIntSpace(t[|t| - 1])
    ensures ParseInt(pre + t + post) == ParseStripped(t)
  {
    TrimAround(pre, t, post, IsIntSpace);
  }

  /** A token that starts with neither a sign nor a digit is not a number. */
  lemma BadStartFails(r: string)
    requires r != [] && !IsDigit(r[0]) && r[0] != '+' && r[0] != '-'
    ensures ParseStripped(r) == None
  {
  }

  /** A token that does not end with a digit is not a number. */
  lemma BadEndFails(r: string)
    requires r != [] && !IsDigit(r[|r| - 1])
    ensures ParseStripped(r) == None
  {
    if |r| > 1 {
      assert r[1..][|r| - 2] == r[|r| - 1];
    }
  }

  /** An information separator (U+001C to U+001F) before a token makes `int()` fail, though
      `str.isspace()` counts it as whitespace. */
  lemma LeadingSeparatorFails(c: char, t: string)
    requires '\U{1C}' <= c <= '\U{1F}'
    ensures IsSpace(c)
    ensures ParseInt([c] + t) == None
  {
    var r := Trim([c] + t, IsIntSpace);
    assert TrimLeft([c] + t, IsIntSpace) == [c] + t;
    assert r != [] && r[0] == c;
    BadStartFails(r);
  }

  /** The same for a separator after the token. */
  lemma TrailingSeparatorFails(t: string, c: char)
    requires '\U{1C}' <= c <= '\U{1F}'
    ensures IsSpace(c)
    ensures ParseInt(t + [c]) == None
  {
    var s := t + [c];
    var l := TrimLeft(s, IsIntSpace);
    assert s[|s| - 1] == c && !IsIntSpace(c);
    assert l != [];
    assert l[|l| - 1] == s[|s| - 1];
    TrimNoOpRight(l);
    BadEndFails(l);
  }

  lemma TrimNoOpRight(l: string)
    requires l != [] && !IsIntSpace(l[|l| - 1])
    ensures TrimRight(l, IsIntSpace) == l
  {
  }

  /** The decimal rendering of a natural number, most significant digit first. */
  function ShowNat(n: nat): (r: string)
    ensures |r| > 0
    ensures forall i :: 0 <= i < |r| ==> IsDigit(r[i])
  {
    if n < 10 then [DigitChar(n)] else ShowNat(n / 10) + [DigitChar(n % 10)]
  }

  /** Python's `str(n)` for an integer. */
  function Show(n: int): string
  {
    if n < 0 then "-" + ShowNat(-n) else ShowNat(n)
  }

  /** Each piece of a rendered list: `[str(x) for x in xs]`. */
  function ShowAll(xs: seq<int>): (r: seq<string>)
    ensures |r| == |xs|
  {
    seq(|xs|, i requires 0 <= i < |xs| => Show(xs[i]))
  }

  lemma {:induction false} ShowNatValue(n: nat)
    ensures IsDigitGroups(ShowNat(n))
    ensures DigitsValue(ShowNat(n)) == n
  {
    if n >= 10 {
      ShowNatValue(n / 10);
      var d := ShowNat(n);
      assert d[..|d| - 1] == ShowNat(n / 10);
    }
  }

  /** A rendering has no surrounding whitespace to strip. */
  lemma ShowIsStripped(n: int)
    ensures Trim(Show(n), IsIntSpace) == Show(n)
  {
    var m := if n < 0 then -n else n;
    var d := ShowNat(m);
    var s := Show(n);
    assert s[|s| - 1] == d[|d| - 1];
    assert IsDigit(s[|s| - 1]);
    assert !IsIntSpace(s[|s| - 1]);
    assert s[0] == '-' || IsDigit(s[0]);
    assert !IsIntSpace(s[0]);
    TrimNoOp(s, IsIntSpace);
  }

  /** `int(str(n)) == n`, and the rendering holds no comma. */
  lemma ParseShow(n: int)
    ensures ParseInt(Show(n)) == Some(n)
    ensures ',' !in Show(n)
  {
    ShowIsStripped(n);
    ParseStrippedShow(n);
    ShowNoComma(n);
  }

  /** A rendering parses back without stripping. */
  lemma ParseStrippedShow(n: int)
    ensures ParseStripped(Show(n)) == Some(n)
  {
    var s := Show(n);
    if n < 0 {
      ShowNatValue(-n);
      assert s[0] == '-' && s[1..] == ShowNat(-n);
    } else {
      ShowNatValue(n);
      assert s == ShowNat(n) && IsDigit(s[0]);
    }
  }

  /** A rendering is a sign and digits, so never a comma. */
  lemma ShowNoComma(n: int)
    ensures ',' !in Show(n)
  {
    var s := Show(n);
    forall i | 0 <= i < |s| ensures s[i] != ',' {
      if n < 0 && i > 0 {
        assert s[i] == ShowNat(-n)[i - 1];
      }
    }
  }

  /** An empty or all-whitespace token is not a number. */
  lemma BlankIsNotInt(token: string)
    requires Trim(token, IsIntSpace) == []
    ensures ParseInt(token) == None
  {
  }

  /** `[int(t) for t in tokens]`: the values in order, or the first token `int()` rejects. */
  function ParseAll(tokens: seq<string>): (r: Result<seq<int>, string>)
    ensures r.Success? <==> forall i :: 0 <= i < |tokens| ==> ParseInt(tokens[i]).Some?
    ensures r.Success? ==> |r.value| == |tokens|
    ensures r.Success? ==> forall i :: 0 <= i < |tokens| ==> r.value[i] == ParseInt(tokens[i]).value
  {
    if tokens == [] then Success([])
    else
      var head := ParseInt(tokens[0]);
      var tail := ParseAll(tokens[1..]);
      if head.None? then Failure(tokens[0])
      else if tail.Failure? then tail
      else Success([head.value] + tail.value)
  }

  /** A failure reports the first piece `int()` rejects: every piece before it parses. */
  lemma {:induction false} ParseAllFirstFailure(tokens: seq<string>)
    requires ParseAll(tokens).Failure?
    ensures exists k ::
      && 0 <= k < |tokens|
      && tokens[k] == ParseAll(tokens).error
      && ParseInt(tokens[k]).None?
      && forall j :: 0 <= j < k ==> ParseInt(tokens[j]).Some?
  {
    if ParseInt(tokens[0]).Some? {
      ParseAllFirstFailure(tokens[1..]);
      var k :| 0 <= k < |tokens| - 1 && tokens[1..][k] == ParseAll(tokens[1..]).error
        && ParseInt(tokens[1..][k]).None? && forall j :: 0 <= j < k ==> ParseInt(tokens[1..][j]).Some?;
      assert tokens[k + 1] == ParseAll(tokens).error;
      forall j | 0 <= j < k + 1
        ensures ParseInt(tokens[j]).Some?
      {
        if j > 0 {
          assert tokens[j] == tokens[1..][j - 1];
        }
      }
    }
  }

  /** `_params_to_ints(qs)`; a `Failure` carries the piece that made `int()` raise. */
  function ParamsToInts(qs: string): Result<seq<int>, string>
  {
    ParseAll(Split(qs))
  }

  /** One integer per comma-separated piece, in input order; a failure names a rejected piece. */
  lemma ParamsToIntsShape(qs: string)
    ensures var r := ParamsToInts(qs);
      && (r.Success? ==> |r.value| == Count(qs, ',') + 1)
      && (r.Success? ==> forall i :: 0 <= i < |r.value| ==> Some(r.value[i]) == ParseInt(Split(qs)[i]))
      && (r.Failure? ==> r.error in Split(qs) && ParseInt(r.error).None?)
  {
    SplitShape(qs);
    if ParamsToInts(qs).Failure? {
      ParseAllFirstFailure(Split(qs));
    }
  }

  /** An empty piece (`"1,,2"`, a leading or trailing comma) makes the whole parameter fail. */
  lemma EmptyPieceFails(qs: string)
    requires "" in Split(qs)
    ensures ParamsToInts(qs).Failure?
  {
    BlankIsNotInt("");
  }

  lemma DoubleCommaFails()
    ensures ParamsToInts("1,,2") == Failure("")
  {
    SplitNoComma("2");
    SplitAppend("", "2");
    assert "" + "," + "2" == ",2";
    SplitAppend("1", ",2");
    assert "1" + "," + ",2" == "1,,2";
    ParseShow(1);
    assert Show(1) == "1";
  }

  /** Parsing the comma-join of the renderings of a non-empty list gives the list back. */
  lemma ParamsToIntsRoundTrip(xs: seq<int>)
    requires |xs| > 0
    ensures ParamsToInts(Join(ShowAll(xs))) == Success(xs)
  {
    var ts := ShowAll(xs);
    forall i | 0 <= i < |ts|
      ensures ',' !in ts[i] && ParseInt(ts[i]) == Some(xs[i])
    {
      ParseShow(xs[i]);
    }
    SplitJoin(ts);
    var r := ParseAll(ts);
    assert r.Success?;
    assert r.value == xs;
  }
}
