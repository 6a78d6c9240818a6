/** Shared value types and the text primitives several source files rely on. */
module Wrappers {

  datatype Option<+T> = None | Some(value: T)

  datatype Result<+T, +E> = Ok(value: T) | Err(error: E)
}

/** The ECMAScript notions of white space and line terminators. */
module Text {

  /** What the regular-expression class `\s` and `String.prototype.trim` strip. */
  predicate JsSpace(c: char)
  {
    || c == ' ' || '\t' <= c <= '\r'
    || c == '\U{00A0}' || c == '\U{1680}' || '\U{2000}' <= c <= '\U{200A}'
    || c == '\U{2028}' || c == '\U{2029}' || c == '\U{202F}' || c == '\U{205F}'
    || c == '\U{3000}' || c == '\U{FEFF}'
  }

  function TrimStart(s: string): (r: string)
    ensures |r| <= |s| && r == s[|s| - |r|..]
    ensures r == "" || !JsSpace(r[0])
  {
    if s != "" && JsSpace(s[0]) then TrimStart(s[1..]) else s
  }

  function TrimEnd(s: string): (r: string)
    ensures |r| <= |s| && r == s[..|r|]
    ensures r == "" || !JsSpace(r[|r| - 1])
  {
    if s != "" && JsSpace(s[|s| - 1]) then TrimEnd(s[..|s| - 1]) else s
  }

  function Trim(s: string): (r: string)
    ensures |r| <= |s|
    ensures r == "" || (!JsSpace(r[0]) && !JsSpace(r[|r| - 1]))
  {
    TrimEnd(TrimStart(s))
  }

  predicate AllSpace(s: string) { forall k | 0 <= k < |s| :: JsSpace(s[k]) }

  /** What is cut off in front and behind. */
  function Front(s: string): string { s[..|s| - |TrimStart(s)|] }
  function Back(s: string): string { s[|TrimEnd(s)|..] }

  lemma {:induction false} TrimStartTakes(s: string)
    ensures AllSpace(Front(s))
  {
    if s != "" && JsSpace(s[0]) {
      TrimStartTakes(s[1..]);
      var n := |s| - |TrimStart(s)|;
      assert s[..n] == [s[0]] + s[1..][..n - 1];
    }
  }

  lemma {:induction false} TrimEndTakes(s: string)
    ensures AllSpace(Back(s))
  {
    if s != "" && JsSpace(s[|s| - 1]) {
      var init, n := s[..|s| - 1], |TrimEnd(s)|;
      TrimEndTakes(init);
      assert s[n..] == init[n..] + [s[|s| - 1]];
    }
  }

  /** Trimming takes white space off both ends, all of it, and nothing else. */
  lemma TrimTakes(s: string)
    ensures s == Front(s) + Trim(s) + Back(TrimStart(s)) && AllSpace(Front(s)) && AllSpace(Back(TrimStart(s)))
    ensures Trim(s) != "" ==> !JsSpace(Trim(s)[0]) && !JsSpace(Trim(s)[|Trim(s)| - 1])
  {
    FrontAndBackAreSpace(s);
    PartsJoin(s);
  }

  lemma FrontAndBackAreSpace(s: string)
    ensures AllSpace(Front(s)) && AllSpace(Back(TrimStart(s)))
  {
    TrimStartTakes(s);
    TrimEndTakes(TrimStart(s));
  }

  lemma PartsJoin(s: string)
    ensures s == Front(s) + Trim(s) + Back(TrimStart(s))
  {
    Cut(s, TrimStart(s), Trim(s));
  }

  lemma Cut(s: string, t: string, r: string)
    requires |t| <= |s| && t == s[|s| - |t|..] && |r| <= |t| && r == t[..|r|]
    ensures s == s[..|s| - |t|] + r + t[|r|..]
  {
    assert t == r + t[|r|..];
    assert s == s[..|s| - |t|] + t;
  }

  lemma {:induction false} TrimStartSkips(before: string, s: string)
    requires AllSpace(before)
    ensures TrimStart(before + s) == TrimStart(s)
  {
    if before == "" {
      assert before + s == s;
    } else {
      assert JsSpace(before[0]) && (before + s)[1..] == before[1..] + s;
      TrimStartSkips(before[1..], s);
    }
  }

  lemma {:induction false} TrimEndSkips(s: string, after: string)
    requires AllSpace(after)
    ensures TrimEnd(s + after) == TrimEnd(s)
  {
    if after == "" {
      assert s + after == s;
    } else {
      var n := |after| - 1;
      assert JsSpace(after[n]) && (s + after)[..|s + after| - 1] == s + after[..n];
      TrimEndSkips(s, after[..n]);
    }
  }

  /** And it takes all of it, whatever stands between. */
  lemma TrimSkips(before: string, s: string, after: string)
    requires AllSpace(before) && AllSpace(after) && s != "" && !JsSpace(s[0]) && !JsSpace(s[|s| - 1])
    ensures Trim(before + s + after) == s
  {
    assert before + s + after == before + (s + after);
    TrimStartSkips(before, s + after);
    assert TrimStart(s + after) == s + after;
    TrimEndSkips(s, after);
  }

  lemma TrimIsEmptyIff(s: string)
    ensures Trim(s) == "" <==> AllSpace(s)
  {
    TrimTakes(s);
    if Trim(s) != "" {
      assert s[|Front(s)|] == Trim(s)[0];
    }
  }

  /** White space around a text makes no difference to what trimming leaves of it. */
  lemma TrimIgnores(before: string, s: string, after: string)
    requires AllSpace(before) && AllSpace(after)
    ensures Trim(before + s + after) == Trim(s)
  {
    TrimTakes(s);
    TrimInside(before, s, Front(s), Trim(s), Back(TrimStart(s)), after);
  }

  lemma TrimTwice(s: string)
    ensures Trim(Trim(s)) == Trim(s)
  {
    SolidStays(Trim(s));
  }

  lemma SolidStays(t: string)
    requires t != "" ==> !JsSpace(t[0]) && !JsSpace(t[|t| - 1])
    ensures Trim(t) == t
  {
    assert TrimStart(t) == t;
    assert TrimEnd(t) == t;
  }

  lemma TrimInside(before: string, s: string, front: string, t: string, back: string, after: string)
    requires s == front + t + back && AllSpace(before) && AllSpace(front) && AllSpace(back) && AllSpace(after)
    requires t != "" ==> !JsSpace(t[0]) && !JsSpace(t[|t| - 1])
    ensures Trim(before + s + after) == t
  {
    assert before + s + after == (before + front) + t + (back + after);
    if t == "" {
      TrimIsEmptyIff((before + front) + t + (back + after));
    } else {
      TrimSkips(before + front, t, back + after);
    }
  }

  lemma TrimOne(blank: char, c: char)
    requires JsSpace(blank) && !JsSpace(c)
    ensures Trim([blank, c]) == [c]
  {
    var s := [blank, c];
    assert s[1..] == [c];
    assert TrimStart(s) == TrimStart([c]) == [c];
    assert TrimEnd([c]) == [c];
  }
}

/** Finite sets of integers as ascending lists: what sorting a directory listing yields. */
module Order {

  predicate Rising(s: seq<int>) { forall i, j | 0 <= i < j < |s| :: s[i] < s[j] }

  predicate Least(m: int, s: set<int>) { m in s && forall y | y in s :: m <= y }

  function Min(s: set<int>): (m: int)
    requires s != {}
    ensures Least(m, s)
  {
    LeastExists(s);
    var m :| Least(m, s);
    m
  }

  lemma Pick<T>(s: set<T>) returns (x: T)
    requires s != {}
    ensures x in s
  {
    x :| x in s;
  }

  lemma {:induction false} LeastExists(s: set<int>)
    requires s != {}
    ensures exists m :: Least(m, s)
  {
    var x := Pick(s);
    if s == {x} {
      assert Least(x, s);
    } else {
      assert s == (s - {x}) + {x};
      LeastExists(s - {x});
      var m :| Least(m, s - {x});
      var least := if x < m then x else m;
      forall y | y in s ensures least <= y { assert y == x || y in s - {x}; }
      assert Least(least, s);
    }
  }

  /** The members of `s`, smallest first. */
  function Ascending(s: set<int>): (r: seq<int>)
    ensures Rising(r) && |r| == |s|
    ensures forall x :: x in r <==> x in s
  {
    if s == {} then [] else
      var m := Min(s);
      var rest := Ascending(s - {m});
      assert forall x | x in rest :: x in s && m < x;
      [m] + rest
  }

  /** An ascending list is determined by its members. */
  lemma {:induction false} RisingUnique(a: seq<int>, b: seq<int>)
    requires Rising(a) && Rising(b) && forall x :: x in a <==> x in b
    ensures a == b
  {
    assert (a != [] ==> a[0] in a) && (b != [] ==> b[0] in b);
    if a != [] {
      assert a[0] in b && b[0] in a;
      assert a[0] == b[0];
      forall x ensures x in a[1..] <==> x in b[1..] {
        if x in a[1..] { assert x in b && x != a[0]; }
        if x in b[1..] { assert x in a && x != b[0]; }
      }
      RisingUnique(a[1..], b[1..]);
    }
  }
}

/** Decimal numerals, as `String(n)` writes and `Number(s)` reads them. */
module Decimal {
  predicate IsDigit(c: char) { '0' <= c <= '9' }

  predicate AllDigits(s: string) { forall i | 0 <= i < |s| :: IsDigit(s[i]) }

  function Digit(n: nat): (c: char)
    requires n < 10
    ensures IsDigit(c) && c as int - '0' as int == n
  {
    ('0' as int + n) as char
  }

  function Write(n: nat): (s: string)
    ensures s != "" && AllDigits(s)
  {
    if n < 10 then [Digit(n)] else Write(n / 10) + [Digit(n % 10)]
  }

  function Read(s: string): nat
    requires AllDigits(s)
  {
    if s == "" then 0 else 10 * Read(s[..|s| - 1]) + (s[|s| - 1] as int - '0' as int)
  }

  lemma {:induction false} RoundTrip(n: nat)
    ensures Read(Write(n)) == n
  {
    if n < 10 {
      assert Write(n)[..0] == "";
    } else {
      RoundTrip(n / 10);
      assert Write(n)[..|Write(n)| - 1] == Write(n / 10);
    }
  }
}
