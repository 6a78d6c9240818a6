/**
 * Names that carry their maker: the durable-write staging name of io.ts and the claim id of the approval service,
 * each with the parser that reads the pid back.
 */
module TmpName {
  import opened Wrappers
  import Decimal
  import Text

  predicate IsHex(c: char) { '0' <= c <= '9' || 'a' <= c <= 'f' }

  predicate AllHex(s: string) { forall i | 0 <= i < |s| :: IsHex(s[i]) }

  /** What the dot of a regular expression does not match. */
  predicate LineEnd(c: char) { c in "\n\r\U{2028}\U{2029}" }

  predicate OneLine(s: string) { forall i | 0 <= i < |s| :: !LineEnd(s[i]) }

  /** `<target>.<pid>.<rand>.tmp` */
  function Make(base: string, pid: nat, rand: string): string
  {
    Join(base, Decimal.Write(pid), rand)
  }

  function Join(base: string, digits: string, rand: string): string
  {
    base + "." + digits + "." + rand + ".tmp"
  }

  datatype Parts = Parts(base: string, digits: string, rand: string)

  /** The last dot of the string. */
  function LastDot(s: string): (k: int)
    ensures -1 <= k < |s|
    ensures k >= 0 ==> s[k] == '.'
    ensures forall i | k < i < |s| :: s[i] != '.'
  {
    if s == "" then -1 else if s[|s| - 1] == '.' then |s| - 1 else LastDot(s[..|s| - 1])
  }

  /** The sweep's parser. */
  function Parse(name: string): Option<Parts>
  {
    if |name| < 4 || name[|name| - 4..] != ".tmp" then None
    else
      var x := name[..|name| - 4];
      var b := LastDot(x);
      if b < 0 then None
      else
        var a := LastDot(x[..b]);
        if a < 0 then None
        else
          var p := Parts(x[..a], x[a + 1..b], x[b + 1..]);
          if p.digits != "" && Decimal.AllDigits(p.digits) && p.rand != "" && AllHex(p.rand) && OneLine(p.base)
          then Some(p) else None
  }

  /** What the pattern describes. */
  predicate Matches(name: string, p: Parts)
  {
    && name == Join(p.base, p.digits, p.rand)
    && p.digits != "" && Decimal.AllDigits(p.digits) && p.rand != "" && AllHex(p.rand) && OneLine(p.base)
  }

  lemma LastDotAt(s: string, k: nat)
    requires k < |s| && s[k] == '.' && forall i | k < i < |s| :: s[i] != '.'
    ensures LastDot(s) == k
  {
  }

  lemma Dots(base: string, digits: string, rand: string)
    requires Decimal.AllDigits(digits) && AllHex(rand)
    ensures var x := base + "." + digits + "." + rand;
            LastDot(x) == |base| + 1 + |digits| && LastDot(x[..|base| + 1 + |digits|]) == |base|
  {
    var x := base + "." + digits + "." + rand;
    var b, a := |base| + 1 + |digits|, |base|;
    forall i | b < i < |x| ensures x[i] != '.' { assert x[i] == rand[i - b - 1] && IsHex(rand[i - b - 1]); }
    LastDotAt(x, b);
    var y := x[..b];
    assert y == base + "." + digits;
    forall i | a < i < b ensures y[i] != '.' { assert y[i] == digits[i - a - 1] && Decimal.IsDigit(digits[i - a - 1]); }
    LastDotAt(y, a);
  }

  lemma MatchParses(name: string, p: Parts)
    requires Matches(name, p)
    ensures Parse(name) == Some(p)
  {
    var x := p.base + "." + p.digits + "." + p.rand;
    assert name == x + ".tmp";
    assert name[..|name| - 4] == x && name[|name| - 4..] == ".tmp";
    Dots(p.base, p.digits, p.rand);
    Pieces(p.base, p.digits, p.rand, x);
  }

  lemma Pieces(base: string, digits: string, rand: string, x: string)
    requires x == base + "." + digits + "." + rand
    ensures var b := |base| + 1 + |digits|;
            x[..b][..|base|] == base && x[..|base|] == base && x[|base| + 1..b] == digits && x[b + 1..] == rand
  {
    var b := |base| + 1 + |digits|;
    assert x[..b] == base + "." + digits;
    assert forall i | 0 <= i < |digits| :: x[|base| + 1 + i] == digits[i];
  }

  lemma ParseMatches(name: string)
    requires Parse(name).Some?
    ensures Matches(name, Parse(name).value)
  {
    var x := name[..|name| - 4];
    var b := LastDot(x);
    var a := LastDot(x[..b]);
    assert x == x[..a] + "." + x[a + 1..b] + "." + x[b + 1..];
    assert name == x + ".tmp";
  }

  /** The parser finds exactly the one way the pattern matches, if there is one. */
  lemma ParseIsMatch(name: string, p: Parts)
    ensures Parse(name) == Some(p) <==> Matches(name, p)
  {
    if Matches(name, p) {
      MatchParses(name, p);
    }
    if Parse(name).Some? {
      ParseMatches(name);
    }
  }

  /** A staging name reads back as what it was made from; only a target whose name breaks the line is missed. */
  lemma MakeParses(base: string, pid: nat, rand: string)
    requires rand != "" && AllHex(rand)
    ensures Parse(Make(base, pid, rand)) == if OneLine(base) then Some(Parts(base, Decimal.Write(pid), rand)) else None
    ensures Decimal.Read(Decimal.Write(pid)) == pid
  {
    Decimal.RoundTrip(pid);
    var name := Make(base, pid, rand);
    if OneLine(base) {
      ParseIsMatch(name, Parts(base, Decimal.Write(pid), rand));
    } else if Parse(name).Some? {
      var p := Parse(name).value;
      ParseIsMatch(name, p);
      JoinIsInjective(base, Decimal.Write(pid), rand, p.base, p.digits, p.rand);
    }
  }

  lemma JoinIsInjective(b1: string, d1: string, r1: string, b2: string, d2: string, r2: string)
    requires Join(b1, d1, r1) == Join(b2, d2, r2)
    requires Decimal.AllDigits(d1) && Decimal.AllDigits(d2) && AllHex(r1) && AllHex(r2)
    ensures b1 == b2 && d1 == d2 && r1 == r2
  {
    var n := Join(b1, d1, r1);
    var x1, x2 := b1 + "." + d1 + "." + r1, b2 + "." + d2 + "." + r2;
    assert n == x1 + ".tmp" && n == x2 + ".tmp";
    assert x1 == n[..|n| - 4] == x2;
    SplitAtDot(b1 + "." + d1, r1, b2 + "." + d2, r2);
    SplitAtDot(b1, d1, b2, d2);
  }

  predicate NoDot(s: string) { forall i | 0 <= i < |s| :: s[i] != '.' }

  lemma SplitAtDot(l1: string, r1: string, l2: string, r2: string)
    requires l1 + "." + r1 == l2 + "." + r2 && NoDot(r1) && NoDot(r2)
    ensures l1 == l2 && r1 == r2
  {
    var s := l1 + "." + r1;
    assert s[|l1|] == '.' && s[|l2|] == '.';
    forall i | |l1| < i < |s| ensures s[i] != '.' { assert s[i] == r1[i - |l1| - 1]; }
    forall i | |l2| < i < |s| ensures s[i] != '.' { assert s[i] == r2[i - |l2| - 1]; }
    assert |l1| == |l2|;
    assert l1 == s[..|l1|] == l2;
    assert r1 == s[|l1| + 1..] == r2;
  }

  // ----- claim ids -------------------------------------------------------------------

  /** `<pid>:<hex token>` */
  function ClaimId(pid: nat, token: string): string { Decimal.Write(pid) + ":" + token }

  function Colon(s: string): (k: nat)
    ensures k <= |s| && (k < |s| ==> s[k] == ':') && forall i | 0 <= i < k :: s[i] != ':'
  {
    if s == "" || s[0] == ':' then 0 else 1 + Colon(s[1..])
  }

  /** The holder's pid, or nothing when the id does not have the claim shape. */
  function HolderPid(claimId: string): Option<nat> { PidOf(Text.Trim(claimId)) }

  function PidOf(id: string): Option<nat>
  {
    var k := Colon(id);
    if 0 < k < |id| && Decimal.AllDigits(id[..k]) && AllHex(id[k + 1..]) then Some(Decimal.Read(id[..k])) else None
  }

  /** Trimming leaves a string alone that neither starts nor ends with a blank. */
  lemma TrimKeeps(s: string)
    requires s != "" && !Text.JsSpace(s[0]) && !Text.JsSpace(s[|s| - 1])
    ensures Text.Trim(s) == s
  {
  }

  /** The pid of a minted claim reads back, and two claims are equal only if pid and token are. */
  lemma ClaimIdRoundTrip(pid: nat, token: string, pid': nat, token': string)
    requires AllHex(token) && AllHex(token')
    ensures HolderPid(ClaimId(pid, token)) == Some(pid)
    ensures ClaimId(pid, token) == ClaimId(pid', token') <==> pid == pid' && token == token'
  {
    ClaimParses(pid, token);
    ClaimParses(pid', token');
    if ClaimId(pid, token) == ClaimId(pid', token') {
      assert token == ClaimId(pid, token)[|Decimal.Write(pid)| + 1..];
    }
  }

  lemma ClaimEnds(d: string, token: string, id: string)
    requires d != "" && Decimal.AllDigits(d) && AllHex(token) && id == d + ":" + token
    ensures Text.Trim(id) == id && id != "" && !Text.JsSpace(id[0]) && !Text.JsSpace(id[|id| - 1])
  {
    assert id[0] == d[0] && Decimal.IsDigit(d[0]);
    if token == "" {
      assert id[|id| - 1] == ':';
    } else {
      assert id[|id| - 1] == token[|token| - 1] && IsHex(token[|token| - 1]);
    }
    TrimKeeps(id);
  }

  lemma {:induction false} ColonIs(d: string, token: string)
    requires Decimal.AllDigits(d)
    ensures Colon(d + ":" + token) == |d|
  {
    var id := d + ":" + token;
    if d != "" {
      assert Decimal.IsDigit(d[0]);
      assert id[1..] == d[1..] + ":" + token;
      ColonIs(d[1..], token);
    }
  }

  lemma ClaimParses(pid: nat, token: string)
    requires AllHex(token)
    ensures HolderPid(ClaimId(pid, token)) == Some(pid)
  {
    var id, d := ClaimId(pid, token), Decimal.Write(pid);
    Decimal.RoundTrip(pid);
    ClaimEnds(d, token, id);
    PidOfParts(d, token, id);
  }

  lemma PidOfParts(d: string, token: string, id: string)
    requires d != "" && Decimal.AllDigits(d) && AllHex(token) && id == d + ":" + token
    ensures PidOf(id) == Some(Decimal.Read(d))
  {
    ColonIs(d, token);
    assert id[..|d|] == d && id[|d| + 1..] == token;
  }

  /** White space around a stored claim id does not matter. */
  lemma PaddedClaimReads(before: string, pid: nat, token: string, after: string)
    requires AllHex(token) && Text.AllSpace(before) && Text.AllSpace(after)
    ensures HolderPid(before + ClaimId(pid, token) + after) == Some(pid)
  {
    var id, d := ClaimId(pid, token), Decimal.Write(pid);
    Decimal.RoundTrip(pid);
    ClaimEnds(d, token, id);
    Text.TrimSkips(before, id, after);
    ClaimParses(pid, token);
  }
}
