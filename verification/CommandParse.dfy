/**
 * The one parser of the command surface: tokens, flags, positionals (packages/evolution-commands/src/parse.ts).
 */
module CommandParse {
  import opened Wrappers
  import Text

  // ----- tokens ------------------------------------------------------------------

  const QUOTE: char := '\"'

  function Push(tokens: seq<string>, current: string): seq<string> { if current == "" then tokens else tokens + [current] }

  /** What the scan still adds to `tokens` when `s` is left to read. */
  function Scan(s: string, tokens: seq<string>, current: string, quoted: bool): seq<string>
    decreases |s|
  {
    if s == "" then Push(tokens, current)
    else if s[0] == QUOTE then Scan(s[1..], tokens, current, !quoted)
    else if !quoted && Text.JsSpace(s[0]) then Scan(s[1..], Push(tokens, current), "", quoted)
    else Scan(s[1..], tokens, current + [s[0]], quoted)
  }

  method Tokenize(input: string) returns (tokens: seq<string>)
    ensures tokens == Scan(Text.Trim(input), [], "", false)
  {
    var s := Text.Trim(input);
    var current, quoted := "", false;
    tokens := [];
    var i := 0;
    while i < |s|
      invariant 0 <= i <= |s|
      invariant Scan(s[i..], tokens, current, quoted) == Scan(s, [], "", false)
    {
      var c := s[i];
      assert s[i..][1..] == s[i + 1..];
      if c == QUOTE {
        quoted := !quoted;
      } else if !quoted && Text.JsSpace(c) {
        if current != "" {
          tokens := tokens + [current];
          current := "";
        }
      } else {
        current := current + [c];
      }
      i := i + 1;
    }
    if current != "" {
      tokens := tokens + [current];
    }
  }

  predicate QuoteFree(t: string) { forall i | 0 <= i < |t| :: t[i] != QUOTE }

  function Quoted(t: string): string { [QUOTE] + t + [QUOTE] }

  /** The tokens quoted, one blank between two of them. */
  function Spell(tokens: seq<string>): string
  {
    if tokens == [] then ""
    else if |tokens| == 1 then Quoted(tokens[0])
    else Quoted(tokens[0]) + " " + Spell(tokens[1..])
  }

  lemma {:induction false} ScanQuoted(t: string, rest: string, tokens: seq<string>, current: string)
    requires QuoteFree(t)
    ensures Scan(t + [QUOTE] + rest, tokens, current, true) == Scan(rest, tokens, current + t, false)
    decreases |t|
  {
    var s := t + [QUOTE] + rest;
    if t == "" {
      assert s[1..] == rest && current + t == current;
    } else {
      assert s[1..] == t[1..] + [QUOTE] + rest;
      ScanQuoted(t[1..], rest, tokens, current + [t[0]]);
      assert current + [t[0]] + t[1..] == current + t;
    }
  }

  lemma ScanToken(t: string, rest: string, tokens: seq<string>)
    requires QuoteFree(t)
    ensures Scan(Quoted(t) + rest, tokens, "", false) == Scan(rest, tokens, t, false)
  {
    assert (Quoted(t) + rest)[1..] == t + [QUOTE] + rest;
    ScanQuoted(t, rest, tokens, "");
    assert "" + t == t;
  }

  /** White space outside quotes ends the token under way. */
  lemma ScanBlank(t: string, blank: char, rest: string, done: seq<string>)
    requires t != "" && blank != QUOTE && Text.JsSpace(blank)
    ensures Scan([blank] + rest, done, t, false) == Scan(rest, done + [t], "", false)
  {
    assert ([blank] + rest)[1..] == rest;
  }

  lemma {:induction false} ScanSpelled(tokens: seq<string>, done: seq<string>)
    requires forall t | t in tokens :: t != "" && QuoteFree(t)
    ensures Scan(Spell(tokens), done, "", false) == done + tokens
    decreases |tokens|
  {
    if tokens == [] {
    } else if |tokens| == 1 {
      assert Quoted(tokens[0]) + "" == Quoted(tokens[0]);
      ScanToken(tokens[0], "", done);
      assert done + [tokens[0]] == done + tokens;
    } else {
      var rest := Spell(tokens[1..]);
      assert Quoted(tokens[0]) + " " + rest == Quoted(tokens[0]) + (" " + rest);
      ScanToken(tokens[0], " " + rest, done);
      ScanBlank(tokens[0], ' ', rest, done);
      assert forall t | t in tokens[1..] :: t in tokens;
      ScanSpelled(tokens[1..], done + [tokens[0]]);
      assert done + [tokens[0]] + tokens[1..] == done + tokens;
    }
  }

  lemma TrimKeeps(s: string)
    requires s == "" || (s[0] == QUOTE && s[|s| - 1] == QUOTE)
    ensures Text.Trim(s) == s
  {
    assert !Text.JsSpace(QUOTE);
    assert Text.TrimStart(s) == s;
    assert Text.TrimEnd(s) == s;
  }

  lemma {:induction false} SpellEnds(tokens: seq<string>)
    ensures var s := Spell(tokens); s == "" || (s[0] == QUOTE && s[|s| - 1] == QUOTE)
  {
    if |tokens| > 1 {
      SpellEnds(tokens[1..]);
      assert Spell(tokens[1..]) != "";
    }
  }

  /** Reading back what was spelled: any list of non-empty tokens without quotes, whatever blanks they hold. */
  lemma SpelledReadsBack(tokens: seq<string>)
    requires forall t | t in tokens :: t != "" && QuoteFree(t)
    ensures Scan(Text.Trim(Spell(tokens)), [], "", false) == tokens
  {
    SpellEnds(tokens);
    TrimKeeps(Spell(tokens));
    ScannedIs(Text.Trim(Spell(tokens)), tokens);
  }

  lemma ScannedIs(s: string, tokens: seq<string>)
    requires s == Spell(tokens) && forall t | t in tokens :: t != "" && QuoteFree(t)
    ensures Scan(s, [], "", false) == tokens
  {
    ScanSpelled(tokens, []);
    assert [] + tokens == tokens;
  }

  /** A token that needs no quotes. */
  predicate Plain(t: string) { t != "" && QuoteFree(t) && forall i | 0 <= i < |t| :: !Text.JsSpace(t[i]) }

  /** The tokens as they are, one white-space character between two of them. */
  function Unquoted(tokens: seq<string>, blank: char): string
  {
    if tokens == [] then "" else if |tokens| == 1 then tokens[0] else tokens[0] + [blank] + Unquoted(tokens[1..], blank)
  }

  lemma {:induction false} ScanPlain(t: string, rest: string, tokens: seq<string>, current: string)
    requires QuoteFree(t) && forall i | 0 <= i < |t| :: !Text.JsSpace(t[i])
    ensures Scan(t + rest, tokens, current, false) == Scan(rest, tokens, current + t, false)
    decreases |t|
  {
    if t == "" {
      assert t + rest == rest && current + t == current;
    } else {
      assert (t + rest)[1..] == t[1..] + rest;
      ScanPlain(t[1..], rest, tokens, current + [t[0]]);
      assert current + [t[0]] + t[1..] == current + t;
    }
  }

  lemma PlainHead(t: string, blank: char, rest: string, done: seq<string>)
    requires Plain(t) && blank != QUOTE && Text.JsSpace(blank)
    ensures Scan(t + [blank] + rest, done, "", false) == Scan(rest, done + [t], "", false)
  {
    assert t + [blank] + rest == t + ([blank] + rest) && "" + t == t;
    ScanPlain(t, [blank] + rest, done, "");
    ScanBlank(t, blank, rest, done);
  }

  /** Tokens that need no quotes are read from the line as they stand, whatever white space parts them. */
  lemma {:induction false} PlainReadsBack(tokens: seq<string>, blank: char, done: seq<string>)
    requires blank != QUOTE && Text.JsSpace(blank) && forall t | t in tokens :: Plain(t)
    ensures Scan(Unquoted(tokens, blank), done, "", false) == done + tokens
    decreases |tokens|
  {
    if tokens != [] {
      var t := tokens[0];
      assert t in tokens && Plain(t);
      if |tokens| == 1 {
        ScanPlain(t, "", done, "");
        assert t + "" == t && "" + t == t && done + [t] == done + tokens;
      } else {
        PlainHead(t, blank, Unquoted(tokens[1..], blank), done);
        PlainReadsBack(tokens[1..], blank, done + [t]);
        assert done + [t] + tokens[1..] == done + tokens;
      }
    }
  }

  // ----- flags and positionals ------------------------------------------------------

  const VALUE_FLAGS: set<string> := {"group", "expect", "base", "to", "timeout", "plan", "start", "end", "outcome"}

  /** A flag's value, or bare. */
  datatype Given = Bare | With(value: string)

  datatype Parsed = Parsed(flags: map<string, Given>, positionals: seq<string>)

  /** A value flag was left without its value. */
  datatype Missing = Missing(flag: string)

  predicate Dashed(t: string) { |t| >= 2 && t[0] == '-' && t[1] == '-' }

  function IndexOf(t: string, c: char): (k: nat)
    ensures k <= |t| && (k < |t| ==> t[k] == c) && forall i | 0 <= i < k :: t[i] != c
  {
    if t == "" || t[0] == c then 0 else 1 + IndexOf(t[1..], c)
  }

  /** What one or two tokens of the line mean. */
  datatype Item = Positional(t: string) | BareFlag(flag: string) | Spaced(flag: string, value: string) | Equals(flag: string, value: string)

  function Tokens(item: Item): seq<string>
  {
    match item
    case Positional(t) => [t]
    case BareFlag(flag) => ["--" + flag]
    case Spaced(flag, value) => ["--" + flag, value]
    case Equals(flag, value) => ["--" + flag + "=" + value]
  }

  predicate NoEquals(flag: string) { forall i | 0 <= i < |flag| :: flag[i] != '=' }

  /** What each form is written with. */
  predicate Proper(item: Item)
  {
    match item
    case Positional(t) => !Dashed(t)
    case BareFlag(flag) => NoEquals(flag) && flag !in VALUE_FLAGS
    case Spaced(flag, value) => flag in VALUE_FLAGS && !Dashed(value)
    case Equals(flag, value) => NoEquals(flag)
  }

  function Flatten(items: seq<Item>): seq<string>
  {
    if items == [] then [] else Tokens(items[0]) + Flatten(items[1..])
  }

  function Take(p: Parsed, item: Item): Parsed
  {
    match item
    case Positional(t) => p.(positionals := p.positionals + [t])
    case BareFlag(flag) => p.(flags := p.flags[flag := Bare])
    case Spaced(flag, value) => p.(flags := p.flags[flag := With(value)])
    case Equals(flag, value) => p.(flags := p.flags[flag := With(value)])
  }

  /** What a line of items means: later flags win, positionals keep their order. */
  function Meaning(items: seq<Item>): Parsed
  {
    if items == [] then Parsed(map[], []) else Take(Meaning(items[..|items| - 1]), items[|items| - 1])
  }

  /** The item at the head of the tokens, and how many tokens it takes. */
  function HeadItem(rest: seq<string>): Result<Item, Missing>
    requires rest != []
  {
    var token := rest[0];
    if !Dashed(token) then Ok(Positional(token))
    else
      var eq := IndexOf(token, '=');
      if eq < |token| then Ok(Equals(token[2..eq], token[eq + 1..]))
      else
        var flag := token[2..];
        if flag !in VALUE_FLAGS then Ok(BareFlag(flag))
        else if |rest| == 1 || Dashed(rest[1]) then Err(Missing(flag))
        else Ok(Spaced(flag, rest[1]))
  }

  /** The line's items in order, or the first missing value. */
  function Group(rest: seq<string>): Result<seq<Item>, Missing>
    decreases |rest|
  {
    if rest == [] then Ok([])
    else
      var head := HeadItem(rest);
      if head.Err? then Err(head.error)
      else
        var tail := Group(rest[if head.value.Spaced? then 2 else 1..]);
        if tail.Err? then tail else Ok([head.value] + tail.value)
  }

  // ----- the parser ---------------------------------------------------------------------

  lemma TakeAll(items: seq<Item>, item: Item)
    ensures Meaning(items + [item]) == Take(Meaning(items), item)
  {
    assert (items + [item])[..|items|] == items;
  }

  /** The outcome of a whole line from its items. */
  function Outcome(g: Result<seq<Item>, Missing>): Result<Parsed, Missing>
  {
    if g.Err? then Err(g.error) else Ok(Meaning(g.value))
  }

  /** The items read so far, continued by what the rest of the line holds. */
  function Continued(sofar: seq<Item>, rest: seq<string>): Result<seq<Item>, Missing>
  {
    var g := Group(rest);
    if g.Err? then g else Ok(sofar + g.value)
  }

  lemma ContinuesFromStart(rest: seq<string>)
    ensures Continued([], rest) == Group(rest)
  {
    if Group(rest).Ok? {
      assert [] + Group(rest).value == Group(rest).value;
    }
  }

  lemma ContinuesStep(sofar: seq<Item>, rest: seq<string>, item: Item)
    requires rest != [] && HeadItem(rest) == Ok(item)
    ensures Continued(sofar, rest) == Continued(sofar + [item], rest[if item.Spaced? then 2 else 1..])
  {
    var tail := Group(rest[if item.Spaced? then 2 else 1..]);
    if tail.Ok? {
      assert sofar + ([item] + tail.value) == sofar + [item] + tail.value;
    }
  }

  /** One turn of the index loop. */
  method TakeOne(rest: seq<string>, index: nat, p: Parsed) returns (r: Result<Parsed, Missing>, next: nat, ghost item: Item)
    requires index < |rest|
    ensures r.Ok? ==> HeadItem(rest[index..]) == Ok(item) && r.value == Take(p, item)
    ensures r.Ok? ==> next == index + if item.Spaced? then 2 else 1
    ensures r.Ok? ==> next <= |rest| && rest[index..][if item.Spaced? then 2 else 1..] == rest[next..]
    ensures r.Err? ==> HeadItem(rest[index..]) == Err(r.error)
  {
    var token := rest[index];
    var eq := IndexOf(token, '=');
    next := index + 1;
    item := Positional(token);
    if !Dashed(token) {
      r := Ok(p.(positionals := p.positionals + [token]));
      return;
    }
    if eq < |token| {
      r := Ok(p.(flags := p.flags[token[2..eq] := With(token[eq + 1..])]));
      item := Equals(token[2..eq], token[eq + 1..]);
      return;
    }
    var flag := token[2..];
    if flag !in VALUE_FLAGS {
      r := Ok(p.(flags := p.flags[flag := Bare]));
      item := BareFlag(flag);
      return;
    }
    if index + 1 == |rest| || Dashed(rest[index + 1]) {
      r := Err(Missing(flag));
      return;
    }
    r := Ok(p.(flags := p.flags[flag := With(rest[index + 1])]));
    item := Spaced(flag, rest[index + 1]);
    next := index + 2;
  }

  /** The tokens behind the name. */
  method ParseRest(rest: seq<string>) returns (r: Result<Parsed, Missing>)
    ensures r == Outcome(Group(rest))
  {
    var p := Parsed(map[], []);
    ghost var items: seq<Item> := [];
    var index := 0;
    ContinuesFromStart(rest);
    assert rest[0..] == rest;
    while index < |rest|
      invariant 0 <= index <= |rest|
      invariant Meaning(items) == p
      invariant Continued(items, rest[index..]) == Group(rest)
    {
      var one, next, item := TakeOne(rest, index, p);
      if one.Err? {
        return Err(one.error);
      }
      TakeAll(items, item);
      ContinuesStep(items, rest[index..], item);
      items := items + [item];
      p := one.value;
      index := next;
    }
    assert rest[index..] == [] && items + [] == items;
    r := Ok(p);
  }

  function Lower(s: string): string
  {
    if s == "" then "" else [if 'A' <= s[0] <= 'Z' then s[0] + ' ' else s[0]] + Lower(s[1..])
  }

  lemma {:induction false} LowerIs(s: string)
    ensures |Lower(s)| == |s|
    ensures forall i | 0 <= i < |s| :: Lower(s)[i] == if 'A' <= s[i] <= 'Z' then s[i] + ' ' else s[i]
  {
    if s != "" {
      LowerIs(s[1..]);
      assert forall i | 1 <= i < |s| :: Lower(s)[i] == Lower(s[1..])[i - 1];
    }
  }

  datatype Failure = UnknownSubcommand | MissingValue(name: string, flag: string)

  datatype Command = Command(name: string, given: Parsed)

  method ParseSubcommand(input: string) returns (r: Result<Command, Failure>)
    ensures var tokens := Scan(Text.Trim(input), [], "", false);
            && (r == Err(UnknownSubcommand) <==> tokens == [])
            && (tokens != [] ==>
                  (match Outcome(Group(tokens[1..]))
                   case Err(missing) => r == Err(MissingValue(Lower(tokens[0]), missing.flag))
                   case Ok(given) => r == Ok(Command(Lower(tokens[0]), given))))
  {
    var tokens := Tokenize(input);
    r := ParseTokens(tokens);
  }

  method ParseTokens(tokens: seq<string>) returns (r: Result<Command, Failure>)
    ensures r == Err(UnknownSubcommand) <==> tokens == []
    ensures tokens != [] ==>
              match Outcome(Group(tokens[1..]))
              case Err(missing) => r == Err(MissingValue(Lower(tokens[0]), missing.flag))
              case Ok(given) => r == Ok(Command(Lower(tokens[0]), given))
  {
    if tokens == [] {
      return Err(UnknownSubcommand);
    }
    var rest := ParseRest(tokens[1..]);
    match rest {
      case Err(missing) => return Err(MissingValue(Lower(tokens[0]), missing.flag));
      case Ok(given) => return Ok(Command(Lower(tokens[0]), given));
    }
  }

  // ----- what a line means -----------------------------------------------------------------

  lemma DashedFlag(flag: string, value: string)
    requires NoEquals(flag)
    ensures Dashed("--" + flag) && ("--" + flag)[2..] == flag
    ensures IndexOf("--" + flag, '=') == |"--" + flag|
    ensures var t := "--" + flag + "=" + value;
            Dashed(t) && IndexOf(t, '=') == |flag| + 2 && t[2..|flag| + 2] == flag && t[|flag| + 3..] == value
  {
    var t := "--" + flag + "=" + value;
    assert t[|flag| + 2] == '=';
    assert forall i | 2 <= i < |flag| + 2 :: t[i] == flag[i - 2];
    assert forall i | 2 <= i < |flag| + 2 :: ("--" + flag)[i] == flag[i - 2];
  }

  lemma ValueFlagsHaveNoEquals(flag: string)
    requires flag in VALUE_FLAGS
    ensures NoEquals(flag)
  {
  }

  /** Each form is read back as what it was written as, whatever follows it. */
  lemma HeadReadsBack(item: Item, rest: seq<string>)
    requires Proper(item)
    ensures HeadItem(Tokens(item) + rest) == Ok(item)
    ensures (Tokens(item) + rest)[if item.Spaced? then 2 else 1..] == rest
  {
    match item
    case Positional(t) =>
    case BareFlag(flag) => DashedFlag(flag, "");
    case Spaced(flag, value) =>
      ValueFlagsHaveNoEquals(flag);
      DashedFlag(flag, value);
    case Equals(flag, value) => DashedFlag(flag, value);
  }

  /** A line written from items parses to their meaning. */
  lemma {:induction false} WrittenItemsReadBack(items: seq<Item>)
    requires forall i | i in items :: Proper(i)
    ensures Group(Flatten(items)) == Ok(items)
  {
    if items != [] {
      HeadReadsBack(items[0], Flatten(items[1..]));
      WrittenItemsReadBack(items[1..]);
      assert [items[0]] + items[1..] == items;
    }
  }

  lemma HeadIsProper(rest: seq<string>)
    requires rest != [] && HeadItem(rest).Ok?
    ensures var item := HeadItem(rest).value;
            && Proper(item) && |Tokens(item)| <= |rest| && Tokens(item) == rest[..|Tokens(item)|]
            && |Tokens(item)| == if item.Spaced? then 2 else 1
  {
    var token := rest[0];
    if Dashed(token) {
      assert token == "--" + token[2..];
      var eq := IndexOf(token, '=');
      if eq < |token| {
        assert token == "--" + token[2..eq] + "=" + token[eq + 1..];
      }
    }
  }

  /** And every line that parses was written from items of the proper forms: in particular a value flag in spaced
      form never takes a token that starts with two dashes. */
  lemma {:induction false} ParsedLinesAreItems(rest: seq<string>)
    requires Group(rest).Ok?
    ensures Flatten(Group(rest).value) == rest && forall i | i in Group(rest).value :: Proper(i)
    decreases |rest|
  {
    if rest != [] {
      HeadIsProper(rest);
      var item := HeadItem(rest).value;
      var n := if item.Spaced? then 2 else 1;
      ParsedLinesAreItems(rest[n..]);
      ItemJoins(item, Group(rest[n..]).value, rest, n);
    }
  }

  lemma ItemJoins(item: Item, tail: seq<Item>, rest: seq<string>, n: nat)
    requires Proper(item) && n <= |rest| && Tokens(item) == rest[..n]
    requires Flatten(tail) == rest[n..] && forall i | i in tail :: Proper(i)
    ensures Flatten([item] + tail) == rest && forall i | i in [item] + tail :: Proper(i)
  {
    assert ([item] + tail)[1..] == tail;
    assert rest == rest[..n] + rest[n..];
  }

  /** A line is refused exactly when some value flag, behind items that parse, is the last token or is followed by
      a token that starts with two dashes. */
  lemma RefusedIff(rest: seq<string>, flag: string)
    ensures Group(rest) == Err(Missing(flag)) <==>
            exists items: seq<Item>, tail: seq<string> :: RefusedAt(rest, flag, items, tail)
  {
    if Group(rest) == Err(Missing(flag)) {
      var items, tail := Refusal(rest, flag);
      assert RefusedAt(rest, flag, items, tail);
    }
    if items: seq<Item>, tail: seq<string> :| RefusedAt(rest, flag, items, tail) {
      StarvedIsRefused(items, tail, flag);
    }
  }

  ghost predicate RefusedAt(rest: seq<string>, flag: string, items: seq<Item>, tail: seq<string>)
  {
    rest == Flatten(items) + tail && (forall i | i in items :: Proper(i)) && Starved(tail, flag)
  }

  predicate Starved(tail: seq<string>, flag: string)
  {
    tail != [] && flag in VALUE_FLAGS && tail[0] == "--" + flag && (|tail| == 1 || Dashed(tail[1]))
  }

  lemma {:induction false} StarvedIsRefused(items: seq<Item>, tail: seq<string>, flag: string)
    requires (forall i | i in items :: Proper(i)) && Starved(tail, flag)
    ensures Group(Flatten(items) + tail) == Err(Missing(flag))
  {
    if items == [] {
      assert Flatten(items) + tail == tail;
      ValueFlagsHaveNoEquals(flag);
      DashedFlag(flag, "");
    } else {
      assert Flatten(items) + tail == Tokens(items[0]) + (Flatten(items[1..]) + tail);
      HeadReadsBack(items[0], Flatten(items[1..]) + tail);
      StarvedIsRefused(items[1..], tail, flag);
    }
  }

  lemma FlattenPush(item: Item, items: seq<Item>)
    ensures Flatten([item] + items) == Tokens(item) + Flatten(items)
  {
    assert ([item] + items)[1..] == items;
  }

  lemma RefusalGrows(rest: seq<string>, n: nat, item: Item, items: seq<Item>, tail: seq<string>)
    requires n <= |rest| && rest[..n] == Tokens(item) && rest[n..] == Flatten(items) + tail
    ensures rest == Flatten([item] + items) + tail
  {
    FlattenPush(item, items);
    assert rest == rest[..n] + rest[n..];
  }

  lemma {:induction false} Refusal(rest: seq<string>, flag: string) returns (items: seq<Item>, tail: seq<string>)
    requires Group(rest) == Err(Missing(flag))
    ensures rest == Flatten(items) + tail && (forall i | i in items :: Proper(i)) && Starved(tail, flag)
    decreases |rest|
  {
    var head := HeadItem(rest);
    if head.Err? {
      items, tail := [], rest;
      assert rest[0] == "--" + rest[0][2..];
    } else {
      HeadIsProper(rest);
      var n := if head.value.Spaced? then 2 else 1;
      items, tail := Refusal(rest[n..], flag);
      RefusalGrows(rest, n, head.value, items, tail);
      items := [head.value] + items;
    }
  }

  // ----- order and spelling do not matter --------------------------------------------------------

  function PositionalsOf(items: seq<Item>): seq<string>
  {
    if items == [] then []
    else PositionalsOf(items[..|items| - 1]) + if items[|items| - 1].Positional? then [items[|items| - 1].t] else []
  }

  /** What a flag item sets. */
  function Sets(item: Item): (string, Given)
    requires !item.Positional?
  {
    match item
    case BareFlag(flag) => (flag, Bare)
    case Spaced(flag, value) => (flag, With(value))
    case Equals(flag, value) => (flag, With(value))
  }

  ghost predicate DistinctFlags(items: seq<Item>)
  {
    forall i, j | 0 <= i < j < |items| && !items[i].Positional? && !items[j].Positional? :: Sets(items[i]).0 != Sets(items[j]).0
  }

  ghost predicate SetBy(items: seq<Item>, flag: string, given: Given)
  {
    exists i | 0 <= i < |items| :: !items[i].Positional? && Sets(items[i]) == (flag, given)
  }

  lemma SetByGrows(items: seq<Item>, item: Item, flag: string, given: Given)
    ensures SetBy(items + [item], flag, given) <==>
            SetBy(items, flag, given) || (!item.Positional? && Sets(item) == (flag, given))
  {
    var all := items + [item];
    assert all[|items|] == item;
    if i :| 0 <= i < |items| && !items[i].Positional? && Sets(items[i]) == (flag, given) {
      assert all[i] == items[i];
    }
  }

  lemma MeaningGrows(before: seq<Item>, item: Item, items: seq<Item>, flag: string, given: Given)
    requires items == before + [item] && DistinctFlags(items)
    requires Meaning(before).positionals == PositionalsOf(before)
    requires flag in Meaning(before).flags && Meaning(before).flags[flag] == given <==> SetBy(before, flag, given)
    ensures Meaning(items).positionals == PositionalsOf(items)
    ensures flag in Meaning(items).flags && Meaning(items).flags[flag] == given <==> SetBy(items, flag, given)
  {
    assert items[..|items| - 1] == before;
    SetByGrows(before, item, flag, given);
    if !item.Positional? && Sets(item).0 == flag {
      NotSetBefore(items, flag, given);
    }
  }

  /** With distinct flags the meaning of a line is its positionals in order and the set of what its flags set. */
  lemma {:induction false} MeaningIs(items: seq<Item>, flag: string, given: Given)
    requires DistinctFlags(items)
    ensures Meaning(items).positionals == PositionalsOf(items)
    ensures flag in Meaning(items).flags && Meaning(items).flags[flag] == given <==> SetBy(items, flag, given)
  {
    if items != [] {
      var n := |items| - 1;
      MeaningIs(items[..n], flag, given);
      MeaningGrows(items[..n], items[n], items, flag, given);
    }
  }

  lemma NotSetBefore(items: seq<Item>, flag: string, given: Given)
    requires DistinctFlags(items) && items != [] && !items[|items| - 1].Positional? && Sets(items[|items| - 1]).0 == flag
    ensures !SetBy(items[..|items| - 1], flag, given)
  {
    var n := |items| - 1;
    forall i | 0 <= i < n && !items[i].Positional? ensures Sets(items[..n][i]).0 != flag {
      assert items[..n][i] == items[i];
    }
  }

  /** Two lines that set the same flags to the same values, each once, and have the same positionals in the same
      order parse to the same result: flag groups may be moved anywhere, and `--f v` may be written `--f=v`. */
  lemma OrderAndSpellingDoNotMatter(a: seq<Item>, b: seq<Item>)
    requires forall i | i in a + b :: Proper(i)
    requires DistinctFlags(a) && DistinctFlags(b) && PositionalsOf(a) == PositionalsOf(b)
    requires forall flag, given :: SetBy(a, flag, given) <==> SetBy(b, flag, given)
    ensures Outcome(Group(Flatten(a))) == Outcome(Group(Flatten(b)))
  {
    WrittenItemsReadBack(a);
    WrittenItemsReadBack(b);
    var fa, fb := Meaning(a).flags, Meaning(b).flags;
    forall flag | flag in fa ensures flag in fb && fb[flag] == fa[flag] {
      MeaningIs(a, flag, fa[flag]);
      MeaningIs(b, flag, fa[flag]);
    }
    forall flag | flag in fb ensures flag in fa {
      MeaningIs(a, flag, fb[flag]);
      MeaningIs(b, flag, fb[flag]);
    }
    MeaningIs(a, "", Bare);
    MeaningIs(b, "", Bare);
    assert fa == fb;
  }

  /** One flag of a line written the other way, with no condition on the rest of the line. */
  lemma SpacedIsEquals(before: seq<Item>, flag: string, value: string, after: seq<Item>)
    requires (forall i | i in before + after :: Proper(i)) && flag in VALUE_FLAGS && !Dashed(value)
    ensures Outcome(Group(Flatten(before + [Spaced(flag, value)] + after))) ==
            Outcome(Group(Flatten(before + [Equals(flag, value)] + after)))
  {
    var a, b := before + [Spaced(flag, value)] + after, before + [Equals(flag, value)] + after;
    ValueFlagsHaveNoEquals(flag);
    WrittenItemsReadBack(a);
    WrittenItemsReadBack(b);
    SameMeaning(before, Spaced(flag, value), Equals(flag, value), after);
  }

  lemma {:induction false} SameMeaning(before: seq<Item>, x: Item, y: Item, after: seq<Item>)
    requires forall p :: Take(p, x) == Take(p, y)
    ensures Meaning(before + [x] + after) == Meaning(before + [y] + after)
    decreases |after|
  {
    if after == [] {
      assert before + [x] + after == before + [x] && before + [y] + after == before + [y];
      TakeAll(before, x);
      TakeAll(before, y);
    } else {
      var n := |after| - 1;
      SameMeaning(before, x, y, after[..n]);
      assert before + [x] + after == (before + [x] + after[..n]) + [after[n]];
      assert before + [y] + after == (before + [y] + after[..n]) + [after[n]];
      TakeAll(before + [x] + after[..n], after[n]);
      TakeAll(before + [y] + after[..n], after[n]);
    }
  }
}
