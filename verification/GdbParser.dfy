/** Values printed by gdb, from tokens to a value.

The recursive descent pops from one shared token list. Proved: it accepts exactly
the token lists of a small grammar, in which a list may repeat its last item and
a dictionary may repeat a key, and it returns the meaning of what it consumed;
and it fails with an index error exactly if the tokens broke off. */
module GdbParser {

  /** The lexer's tokens. Punctuation, names and quoted strings are all plain
      strings and cannot be told apart any more. */
  datatype Tok =
    | Str(text: string)
    | Num(n: int)
    | Flt(lexeme: string)
    | Rep(count: nat)
    | Exc(message: string)

  const OPEN := Str("{")
  const CLOSE := Str("}")
  const COMMA := Str(",")
  const EQUALS := Str("=")

  /** A dictionary keeps its keys in the order of their first insertion. */
  datatype Value = Scalar(tok: Tok) | List(items: seq<Tok>) | Dict(entries: seq<Entry>)
  datatype Entry = Entry(key: Tok, value: Value)

  datatype Error = IndexError | AssertionError | Raised(tok: Tok) | Unsupported | UnexpectedInput | NoToken

  datatype Result<+T> = Ok(value: T) | Err(error: Error)
  datatype Parsed<+T> = Parsed(value: T, rest: seq<Tok>)

  // ----- the parser as a function ------------------------------------------

  /** Repeat counts and exceptions are objects without an equality of their own, so as
      keys they are all different. */
  predicate SameKey(a: Tok, b: Tok) {
    a == b && !a.Rep? && !a.Exc?
  }

  /** result[key] = value */
  function Put(entries: seq<Entry>, key: Tok, value: Value): seq<Entry> {
    if entries == [] then [Entry(key, value)]
    else if SameKey(entries[0].key, key) then [Entry(key, value)] + entries[1..]
    else [entries[0]] + Put(entries[1..], key, value)
  }

  function Copies(tok: Tok, n: int): seq<Tok> {
    if n <= 0 then [] else Copies(tok, n - 1) + [tok]
  }

  function ParseValue(ts: seq<Tok>): (r: Result<Parsed<Value>>)
    ensures r.Ok? ==> |r.value.rest| < |ts|
    decreases |ts|, 1
  {
    if ts == [] then Err(IndexError)
    else match ts[0]
      case Exc(_) => Err(Raised(ts[0]))
      case Num(_) => Ok(Parsed(Scalar(ts[0]), ts[1..]))
      case Flt(_) => Ok(Parsed(Scalar(ts[0]), ts[1..]))
      case Str(_) =>
        if ts[0] != OPEN then Ok(Parsed(Scalar(ts[0]), ts[1..]))
        else if |ts| < 3 then Err(IndexError)
        else if ts[2] == EQUALS then
          (match ParseFields(ts[1..], [])
           case Ok(p) => Ok(Parsed(Dict(p.value), p.rest))
           case Err(e) => Err(e))
        else
          (match ParseItems(ts[1..], [])
           case Ok(p) => Ok(Parsed(List(p.value), p.rest))
           case Err(e) => Err(e))
      case Rep(_) => Err(Unsupported)
  }

  /** The loop of `parse_dict`, with `entries` read so far. */
  function ParseFields(ts: seq<Tok>, entries: seq<Entry>): (r: Result<Parsed<seq<Entry>>>)
    ensures r.Ok? ==> |r.value.rest| < |ts|
    decreases |ts|, 0
  {
    if |ts| < 2 then Err(IndexError)
    else if ts[1] != EQUALS then Err(AssertionError)
    else match ParseValue(ts[2..])
      case Err(e) => Err(e)
      case Ok(p) =>
        var entries' := Put(entries, ts[0], p.value);
        if p.rest == [] then Err(IndexError)
        else if p.rest[0] == CLOSE then Ok(Parsed(entries', p.rest[1..]))
        else if p.rest[0] != COMMA then Err(AssertionError)
        else ParseFields(p.rest[1..], entries')
  }

  /** The loop of `parse_list`, with `items` read so far. */
  function ParseItems(ts: seq<Tok>, items: seq<Tok>): (r: Result<Parsed<seq<Tok>>>)
    ensures r.Ok? ==> |r.value.rest| < |ts|
    decreases |ts|
  {
    if |ts| < 2 then Err(IndexError)
    else
      var repeated := ts[1].Rep?;
      var items' := items + [ts[0]] + if repeated then Copies(ts[0], ts[1].count - 1) else [];
      var rest := if repeated then ts[2..] else ts[1..];
      if rest == [] then Err(IndexError)
      else if rest[0] == CLOSE then Ok(Parsed(items', rest[1..]))
      else if rest[0] != COMMA then Err(AssertionError)
      else ParseItems(rest[1..], items')
  }

  // ----- the parser on its shared list -------------------------------------

  class Parser {
    var tokens: seq<Tok>

    constructor (tokens: seq<Tok>)
      ensures this.tokens == tokens
    {
      this.tokens := tokens;
    }

    method ParseTokens() returns (r: Result<Value>)
      modifies this
      ensures match ParseValue(old(tokens))
              case Ok(p) => r == Ok(p.value) && tokens == p.rest
              case Err(e) => r == Err(e)
      decreases |tokens|, 1
    {
      if |tokens| == 0 {
        return Err(IndexError);
      }
      var token := tokens[0];
      match token
      case Exc(_) => return Err(Raised(token));
      case Num(_) =>
        tokens := tokens[1..];
        return Ok(Scalar(token));
      case Flt(_) =>
        tokens := tokens[1..];
        return Ok(Scalar(token));
      case Str(_) =>
        if token == OPEN {
          if |tokens| < 3 {
            return Err(IndexError);
          }
          if tokens[2] == EQUALS {
            var d := ParseDict();
            return match d case Ok(entries) => Ok(Dict(entries)) case Err(e) => Err(e);
          } else {
            var l := ParseList();
            return match l case Ok(items) => Ok(List(items)) case Err(e) => Err(e);
          }
        }
        tokens := tokens[1..];
        return Ok(Scalar(token));
      case Rep(_) => return Err(Unsupported);
    }

    method ParseDict() returns (r: Result<seq<Entry>>)
      requires |tokens| > 0 && tokens[0] == OPEN
      modifies this
      ensures match ParseFields(old(tokens)[1..], [])
              case Ok(p) => r == Ok(p.value) && tokens == p.rest
              case Err(e) => r == Err(e)
      decreases |tokens|, 0
    {
      tokens := tokens[1..];
      var result: seq<Entry> := [];
      ghost var goal := ParseFields(tokens, []);
      while true
        invariant |tokens| < |old(tokens)|
        invariant goal == ParseFields(tokens, result)
        decreases |tokens|
      {
        if |tokens| < 2 {
          return Err(IndexError);
        }
        var key := tokens[0];
        if tokens[1] != EQUALS {
          return Err(AssertionError);
        }
        tokens := tokens[2..];
        var value := ParseTokens();
        if value.Err? {
          return Err(value.error);
        }
        result := Put(result, key, value.value);
        if |tokens| == 0 {
          return Err(IndexError);
        }
        var token := tokens[0];
        tokens := tokens[1..];
        if token == CLOSE {
          return Ok(result);
        }
        if token != COMMA {
          return Err(AssertionError);
        }
      }
    }

    method ParseList() returns (r: Result<seq<Tok>>)
      requires |tokens| > 0 && tokens[0] == OPEN
      modifies this
      ensures match ParseItems(old(tokens)[1..], [])
              case Ok(p) => r == Ok(p.value) && tokens == p.rest
              case Err(e) => r == Err(e)
    {
      tokens := tokens[1..];
      var result: seq<Tok> := [];
      ghost var goal := ParseItems(tokens, []);
      while true
        invariant goal == ParseItems(tokens, result)
        decreases |tokens|
      {
        if |tokens| < 2 {
          return Err(IndexError);
        }
        ghost var before := result;
        result := result + [tokens[0]];
        var token := tokens[1];
        tokens := tokens[2..];
        if token.Rep? {
          result := result + Copies(result[|result| - 1], token.count - 1);
          if |tokens| == 0 {
            return Err(IndexError);
          }
          token := tokens[0];
          tokens := tokens[1..];
        } else {
          assert result == before + [result[|result| - 1]] + [];
        }
        if token == CLOSE {
          return Ok(result);
        }
        if token != COMMA {
          return Err(AssertionError);
        }
      }
    }
  }

  // ----- the grammar -------------------------------------------------------

  /** What stands in the text: a list item may carry a repeat count. Lists and
      dictionaries are never empty. */
  datatype Src = SrcScalar(tok: Tok) | SrcList(runs: Runs) | SrcDict(fields: Fields)
  datatype Runs = LastRun(run: Run) | MoreRuns(run: Run, more: Runs)
  datatype Run = Once(item: Tok) | Repeated(item: Tok, count: nat)
  datatype Fields = LastField(key: Tok, value: Src) | MoreFields(key: Tok, value: Src, more: Fields)

  /** A value must not look like a brace; list items and keys may be any token. */
  predicate WellFormed(s: Src) {
    match s
    case SrcScalar(t) => t.Num? || t.Flt? || (t.Str? && t != OPEN)
    case SrcList(_) => true
    case SrcDict(fields) => WellFormedFields(fields)
  }

  predicate WellFormedFields(fields: Fields) {
    WellFormed(fields.value) && (fields.MoreFields? ==> WellFormedFields(fields.more))
  }

  function Tokens(s: Src): seq<Tok> {
    match s
    case SrcScalar(t) => [t]
    case SrcList(runs) => [OPEN] + RunsTokens(runs)
    case SrcDict(fields) => [OPEN] + FieldsTokens(fields)
  }

  function RunTokens(r: Run): seq<Tok> {
    match r
    case Once(t) => [t]
    case Repeated(t, n) => [t, Rep(n)]
  }

  function RunsTokens(runs: Runs): seq<Tok> {
    match runs
    case LastRun(run) => RunTokens(run) + [CLOSE]
    case MoreRuns(run, more) => RunTokens(run) + ([COMMA] + RunsTokens(more))
  }

  function FieldsTokens(fields: Fields): seq<Tok> {
    match fields
    case LastField(key, value) => [key, EQUALS] + (Tokens(value) + [CLOSE])
    case MoreFields(key, value, more) => [key, EQUALS] + (Tokens(value) + ([COMMA] + FieldsTokens(more)))
  }

  /** A count of zero still leaves the item itself. */
  function RunItems(r: Run): seq<Tok> {
    match r
    case Once(t) => [t]
    case Repeated(t, n) => [t] + Copies(t, n - 1)
  }

  function RunsItems(runs: Runs, items: seq<Tok>): seq<Tok> {
    var items' := items + RunItems(runs.run);
    if runs.LastRun? then items' else RunsItems(runs.more, items')
  }

  function FieldsEntries(fields: Fields, entries: seq<Entry>): seq<Entry> {
    var entries' := Put(entries, fields.key, Meaning(fields.value));
    if fields.LastField? then entries' else FieldsEntries(fields.more, entries')
  }

  function Meaning(s: Src): Value {
    match s
    case SrcScalar(t) => Scalar(t)
    case SrcList(runs) => List(RunsItems(runs, []))
    case SrcDict(fields) => Dict(FieldsEntries(fields, []))
  }

  // ----- everything in the grammar is accepted -----------------------------

  /** One turn of the list loop. */
  lemma ItemsStep(r: Run, tail: seq<Tok>, items: seq<Tok>)
    requires tail != [] && !tail[0].Rep?
    ensures var items' := items + RunItems(r);
            ParseItems(RunTokens(r) + tail, items) ==
            if tail[0] == CLOSE then Ok(Parsed(items', tail[1..]))
            else if tail[0] != COMMA then Err(AssertionError)
            else ParseItems(tail[1..], items')
  {
    var ts := RunTokens(r) + tail;
    match r {
      case Once(t) =>
        assert ts[0] == t && ts[1..] == tail;
        assert items + [t] + [] == items + RunItems(r);
      case Repeated(t, n) =>
        assert ts[0] == t && ts[1] == Rep(n) && ts[2..] == tail;
        assert items + [t] + Copies(t, n - 1) == items + RunItems(r);
    }
  }

  /** Moving a pair of parentheses. */
  lemma Regroup(a: seq<Tok>, b: seq<Tok>, c: seq<Tok>, rest: seq<Tok>)
    ensures (a + (b + c)) + rest == a + (b + (c + rest))
  {
  }

  lemma RegroupTwo(a: seq<Tok>, b: seq<Tok>, rest: seq<Tok>)
    ensures (a + b) + rest == a + (b + rest)
  {
  }

  lemma RegroupFour(a: seq<Tok>, b: seq<Tok>, c: seq<Tok>, d: seq<Tok>, rest: seq<Tok>)
    ensures (a + (b + (c + d))) + rest == a + (b + (c + (d + rest)))
  {
    Regroup(b, c, d, rest);
    assert (a + (b + (c + d))) + rest == a + ((b + (c + d)) + rest);
  }

  lemma {:induction false} ItemsAreRead(runs: Runs, items: seq<Tok>, rest: seq<Tok>)
    ensures ParseItems(RunsTokens(runs) + rest, items) == Ok(Parsed(RunsItems(runs, items), rest))
  {
    match runs {
      case LastRun(run) =>
        ItemsStep(run, [CLOSE] + rest, items);
        RegroupTwo(RunTokens(run), [CLOSE], rest);
      case MoreRuns(run, more) =>
        var tail := [COMMA] + (RunsTokens(more) + rest);
        ItemsStep(run, tail, items);
        ItemsAreRead(more, items + RunItems(run), rest);
        Regroup(RunTokens(run), [COMMA], RunsTokens(more), rest);
        assert tail[1..] == RunsTokens(more) + rest;
    }
  }

  /** One turn of the dictionary loop. */
  lemma FieldsStep(key: Tok, v: Value, after: seq<Tok>, tail: seq<Tok>, entries: seq<Entry>)
    requires ParseValue(after) == Ok(Parsed(v, tail)) && tail != []
    ensures var entries' := Put(entries, key, v);
            ParseFields([key, EQUALS] + after, entries) ==
            if tail[0] == CLOSE then Ok(Parsed(entries', tail[1..]))
            else if tail[0] != COMMA then Err(AssertionError)
            else ParseFields(tail[1..], entries')
  {
    assert ([key, EQUALS] + after)[2..] == after;
  }

  lemma {:induction false} FieldsAreRead(fields: Fields, entries: seq<Entry>, rest: seq<Tok>)
    requires WellFormedFields(fields)
    ensures ParseFields(FieldsTokens(fields) + rest, entries) == Ok(Parsed(FieldsEntries(fields, entries), rest))
  {
    var tail := if fields.LastField? then [CLOSE] + rest else [COMMA] + (FieldsTokens(fields.more) + rest);
    var after := Tokens(fields.value) + tail;
    ValueIsRead(fields.value, tail);
    FieldsStep(fields.key, Meaning(fields.value), after, tail, entries);
    match fields {
      case LastField(_, _) =>
        assert tail[1..] == rest;
        Regroup([fields.key, EQUALS], Tokens(fields.value), [CLOSE], rest);
      case MoreFields(key, value, more) =>
        assert tail[1..] == FieldsTokens(more) + rest;
        RegroupFour([fields.key, EQUALS], Tokens(fields.value), [COMMA], FieldsTokens(more), rest);
        FieldsAreRead(more, Put(entries, key, Meaning(value)), rest);
    }
  }

  /** Whatever follows, a well-formed text is read as what it means, and nothing
      more is consumed. */
  lemma {:induction false} ValueIsRead(s: Src, rest: seq<Tok>)
    requires WellFormed(s)
    ensures ParseValue(Tokens(s) + rest) == Ok(Parsed(Meaning(s), rest))
  {
    var ts := Tokens(s) + rest;
    match s {
      case SrcScalar(t) =>
        assert ts[1..] == rest;
      case SrcList(runs) =>
        assert ts[1..] == RunsTokens(runs) + rest;
        ItemsAreRead(runs, [], rest);
        assert ts[2] == RunsTokens(runs)[1] != EQUALS;
      case SrcDict(fields) =>
        assert ts[1..] == FieldsTokens(fields) + rest;
        FieldsAreRead(fields, [], rest);
        assert ts[2] == FieldsTokens(fields)[1] == EQUALS;
    }
  }

  // ----- nothing else is ---------------------------------------------------

  lemma {:induction false} ReadItems(ts: seq<Tok>, items: seq<Tok>) returns (runs: Runs)
    requires ParseItems(ts, items).Ok?
    ensures ParseItems(ts, items).value.value == RunsItems(runs, items)
    ensures ts == RunsTokens(runs) + ParseItems(ts, items).value.rest
    decreases |ts|
  {
    var rest := ParseItems(ts, items).value.rest;
    var run := if ts[1].Rep? then Repeated(ts[0], ts[1].count) else Once(ts[0]);
    var tail := if ts[1].Rep? then ts[2..] else ts[1..];
    assert ts == RunTokens(run) + tail;
    assert tail[0] == CLOSE || tail[0] == COMMA;
    ItemsStep(run, tail, items);
    if tail[0] == CLOSE {
      runs := LastRun(run);
      assert tail == [CLOSE] + rest;
      RegroupTwo(RunTokens(run), [CLOSE], rest);
    } else {
      var more := ReadItems(tail[1..], items + RunItems(run));
      runs := MoreRuns(run, more);
      assert tail == [COMMA] + tail[1..];
      Regroup(RunTokens(run), [COMMA], RunsTokens(more), rest);
    }
  }

  lemma {:induction false} ReadFields(ts: seq<Tok>, entries: seq<Entry>) returns (fields: Fields)
    requires ParseFields(ts, entries).Ok?
    ensures WellFormedFields(fields)
    ensures ParseFields(ts, entries).value.value == FieldsEntries(fields, entries)
    ensures ts == FieldsTokens(fields) + ParseFields(ts, entries).value.rest
    decreases |ts|, 0
  {
    var p := ParseValue(ts[2..]).value;
    var value := ReadValue(ts[2..]);
    var rest := ParseFields(ts, entries).value.rest;
    assert ts == [ts[0], EQUALS] + ts[2..];
    FieldsStep(ts[0], p.value, ts[2..], p.rest, entries);
    if p.rest[0] == CLOSE {
      fields := LastField(ts[0], value);
      assert p.rest == [CLOSE] + rest;
      Regroup([ts[0], EQUALS], Tokens(value), [CLOSE], rest);
    } else {
      var more := ReadFields(p.rest[1..], Put(entries, ts[0], p.value));
      fields := MoreFields(ts[0], value, more);
      assert p.rest == [COMMA] + (FieldsTokens(more) + rest);
      RegroupFour([ts[0], EQUALS], Tokens(value), [COMMA], FieldsTokens(more), rest);
    }
  }

  /** Whatever is accepted was a well-formed text, and its meaning is returned. */
  lemma {:induction false} ReadValue(ts: seq<Tok>) returns (s: Src)
    requires ParseValue(ts).Ok?
    ensures WellFormed(s)
    ensures ParseValue(ts).value.value == Meaning(s)
    ensures ts == Tokens(s) + ParseValue(ts).value.rest
    decreases |ts|, 1
  {
    assert ts == [ts[0]] + ts[1..];
    if ts[0] != OPEN {
      s := SrcScalar(ts[0]);
    } else if ts[2] == EQUALS {
      var fields := ReadFields(ts[1..], []);
      s := SrcDict(fields);
    } else {
      var runs := ReadItems(ts[1..], []);
      s := SrcList(runs);
    }
  }

  /** `parse_rhs` after the lexer. */
  function ParseAll(ts: seq<Tok>): Result<Value> {
    match ParseValue(ts)
    case Err(e) => Err(e)
    case Ok(p) => if p.rest != [] then Err(UnexpectedInput) else Ok(p.value)
  }

  /** The parser decides the grammar, and the value is that of any way to read
      the tokens. */
  lemma AcceptedIffWellFormed(ts: seq<Tok>, v: Value)
    ensures ParseAll(ts) == Ok(v) <==> exists s :: WellFormed(s) && Tokens(s) == ts && Meaning(s) == v
  {
    if ParseAll(ts) == Ok(v) {
      var s := ReadValue(ts);
      assert Tokens(s) == ts;
    }
    forall s | WellFormed(s) && Tokens(s) == ts
      ensures ParseAll(ts) == Ok(Meaning(s))
    {
      ValueIsRead(s, []);
      assert Tokens(s) + [] == ts;
    }
  }

  // ----- lists, item by item -----------------------------------------------

  lemma {:induction false} CopiesAre(t: Tok, n: int)
    ensures Copies(t, n) == if n <= 0 then [] else seq(n, _ => t)
  {
    if n > 0 {
      CopiesAre(t, n - 1);
    }
  }

  /** How often a run's item stands in the list: at least once, whatever the count. */
  function Times(r: Run): nat {
    if r.Once? || r.count == 0 then 1 else r.count
  }

  function AllTimes(runs: Runs): nat {
    Times(runs.run) + if runs.LastRun? then 0 else AllTimes(runs.more)
  }

  lemma RunIsRepeated(r: Run)
    ensures RunItems(r) == seq(Times(r), _ => r.item)
  {
    if r.Repeated? {
      CopiesAre(r.item, r.count - 1);
    }
  }

  /** A list has an item for every time each run counts, run after run. */
  lemma {:induction false} ItemsAreRepeated(runs: Runs, items: seq<Tok>)
    ensures |RunsItems(runs, items)| == |items| + AllTimes(runs)
    ensures RunsItems(runs, items)[..|items| + Times(runs.run)] == items + seq(Times(runs.run), _ => runs.run.item)
    ensures runs.MoreRuns? ==>
              RunsItems(runs, items) == RunsItems(runs.more, items + seq(Times(runs.run), _ => runs.run.item))
  {
    RunIsRepeated(runs.run);
    var next := items + RunItems(runs.run);
    if runs.MoreRuns? {
      ItemsAreRepeated(runs.more, next);
      var r := RunsItems(runs, items);
      assert r[..|next|] == r[..|next| + Times(runs.more.run)][..|next|];
    }
  }

  /** `{t <repeats n times>}` */
  lemma RepeatedAlone(t: Tok, n: nat)
    ensures ParseAll([Str("{"), t, Rep(n), Str("}")]) == Ok(List(seq(if n == 0 then 1 else n, _ => t)))
  {
    var run := Repeated(t, n);
    var s := SrcList(LastRun(run));
    RunIsRepeated(run);
    ValueIsRead(s, []);
    assert Tokens(s) + [] == [OPEN, t, Rep(n), CLOSE];
    assert [] + RunItems(run) == RunItems(run);
  }

  // ----- dictionaries, key by key ------------------------------------------

  /** The assignments of a dictionary text, in order. */
  function Assignments(fields: Fields): seq<Entry> {
    [Entry(fields.key, Meaning(fields.value))] + if fields.LastField? then [] else Assignments(fields.more)
  }

  function PutAll(entries: seq<Entry>, news: seq<Entry>): seq<Entry>
    decreases |news|
  {
    if news == [] then entries else PutAll(Put(entries, news[0].key, news[0].value), news[1..])
  }

  lemma {:induction false} EntriesArePutAll(fields: Fields, entries: seq<Entry>)
    ensures FieldsEntries(fields, entries) == PutAll(entries, Assignments(fields))
  {
    var entries' := Put(entries, fields.key, Meaning(fields.value));
    if fields.LastField? {
      assert Assignments(fields)[1..] == [];
    } else {
      EntriesArePutAll(fields.more, entries');
      assert Assignments(fields)[1..] == Assignments(fields.more);
    }
  }

  /** The n-th assignment is the first to its key, or the last. */
  ghost predicate IsFirst(news: seq<Entry>, n: nat)
    requires n < |news|
  {
    forall k :: 0 <= k < n ==> !SameKey(news[k].key, news[n].key)
  }

  ghost predicate IsLast(news: seq<Entry>, n: nat)
    requires n < |news|
  {
    forall k :: n < k < |news| ==> !SameKey(news[k].key, news[n].key)
  }

  /** The keys in the order of their first assignments. */
  ghost function NewKeys(news: seq<Entry>): seq<Tok> {
    if news == [] then []
    else
      var n := |news| - 1;
      NewKeys(news[..n]) + if IsFirst(news, n) then [news[n].key] else []
  }

  function Keys(entries: seq<Entry>): (ks: seq<Tok>)
    ensures |ks| == |entries|
  {
    seq(|entries|, i requires 0 <= i < |entries| => entries[i].key)
  }

  /** Each entry is the last assignment to its key. */
  ghost predicate HoldsLast(entries: seq<Entry>, news: seq<Entry>) {
    forall i {:trigger entries[i]} :: 0 <= i < |entries| ==> FromLast(entries[i], news)
  }

  ghost predicate FromLast(e: Entry, news: seq<Entry>) {
    exists n: nat {:trigger news[n]} :: n < |news| && news[n] == e && IsLast(news, n)
  }

  ghost predicate HasKey(entries: seq<Entry>, key: Tok) {
    exists i {:trigger entries[i]} :: 0 <= i < |entries| && SameKey(entries[i].key, key)
  }

  lemma {:induction false} PutAllStep(entries: seq<Entry>, news: seq<Entry>, e: Entry)
    ensures PutAll(entries, news + [e]) == Put(PutAll(entries, news), e.key, e.value)
    decreases |news|
  {
    if news == [] {
      assert ([] + [e])[1..] == [];
    } else {
      assert (news + [e])[1..] == news[1..] + [e];
      PutAllStep(Put(entries, news[0].key, news[0].value), news[1..], e);
    }
  }

  /** One assignment: a known key keeps its place `i`, a new one goes to the end. */
  lemma {:induction false} PutIs(entries: seq<Entry>, key: Tok, value: Value) returns (i: nat)
    ensures if HasKey(entries, key) then
              && i < |entries| && SameKey(entries[i].key, key)
              && Put(entries, key, value) == entries[i := Entry(key, value)]
            else
              Put(entries, key, value) == entries + [Entry(key, value)]
  {
    i := 0;
    if entries != [] && !SameKey(entries[0].key, key) {
      var rest := entries[1..];
      var k := PutIs(rest, key, value);
      assert entries == [entries[0]] + rest;
      if HasKey(entries, key) {
        var n :| 0 <= n < |entries| && SameKey(entries[n].key, key);
        assert SameKey(rest[n - 1].key, key);
        i := k + 1;
      } else {
        forall n | 0 <= n < |rest|
          ensures !SameKey(rest[n].key, key)
        {
          assert rest[n] == entries[n + 1];
        }
      }
    }
  }

  ghost predicate Distinct(entries: seq<Entry>) {
    forall i, j :: 0 <= i < j < |entries| ==> !SameKey(entries[i].key, entries[j].key)
  }

  ghost predicate SameKeys(a: seq<Entry>, b: seq<Entry>) {
    forall key :: HasKey(a, key) <==> HasKey(b, key)
  }

  /** `entries` is what Python's dictionary holds after these assignments. */
  ghost predicate IsDict(entries: seq<Entry>, news: seq<Entry>) {
    Distinct(entries) && HoldsLast(entries, news) && Keys(entries) == NewKeys(news)
  }

  lemma KeyAfter(news: seq<Entry>, e: Entry, key: Tok)
    ensures HasKey(news + [e], key) <==> HasKey(news, key) || SameKey(e.key, key)
  {
    var all := news + [e];
    if HasKey(news, key) {
      var i :| 0 <= i < |news| && SameKey(news[i].key, key);
      assert SameKey(all[i].key, key);
    }
    if SameKey(e.key, key) {
      assert SameKey(all[|news|].key, key);
    }
  }

  lemma LastStays(news: seq<Entry>, e: Entry, x: Entry)
    requires FromLast(x, news) && !SameKey(e.key, x.key)
    ensures FromLast(x, news + [e])
  {
    var n: nat :| n < |news| && news[n] == x && IsLast(news, n);
    var all := news + [e];
    assert all[n] == x && IsLast(all, n);
  }

  lemma LastIsNew(news: seq<Entry>, e: Entry)
    ensures FromLast(e, news + [e])
  {
    var all := news + [e];
    assert all[|news|] == e && IsLast(all, |news|);
  }

  lemma DictStep(entries: seq<Entry>, news: seq<Entry>, e: Entry)
    requires IsDict(entries, news) && SameKeys(entries, news)
    ensures IsDict(Put(entries, e.key, e.value), news + [e]) && SameKeys(Put(entries, e.key, e.value), news + [e])
  {
    var r, all := Put(entries, e.key, e.value), news + [e];
    var i := PutIs(entries, e.key, e.value);
    var known := HasKey(entries, e.key);
    assert e == Entry(e.key, e.value);
    assert all[..|news|] == news && all[|news|] == e;
    assert known <==> HasKey(news, e.key);
    assert IsFirst(all, |news|) <==> !known by {
      FirstIsNew(news, e);
    }
    assert Keys(r) == if known then Keys(entries) else Keys(entries) + [e.key];
    forall k | 0 <= k < |r|
      ensures FromLast(r[k], all)
    {
      if r[k] == e {
        LastIsNew(news, e);
      } else {
        assert r[k] == entries[k] && FromLast(entries[k], news);
        LastStays(news, e, entries[k]);
      }
    }
    forall key
      ensures HasKey(r, key) <==> HasKey(all, key)
    {
      KeyAfter(news, e, key);
      if known {
        KeyOfUpdate(entries, i, e, key);
      } else {
        KeyAfter(entries, e, key);
      }
    }
  }

  lemma FirstIsNew(news: seq<Entry>, e: Entry)
    ensures IsFirst(news + [e], |news|) <==> !HasKey(news, e.key)
  {
    var all := news + [e];
    forall k | 0 <= k < |news|
      ensures all[k] == news[k]
    {
    }
  }

  lemma KeyOfUpdate(entries: seq<Entry>, i: nat, e: Entry, key: Tok)
    requires i < |entries| && SameKey(entries[i].key, e.key)
    ensures HasKey(entries[i := e], key) <==> HasKey(entries, key) || SameKey(e.key, key)
  {
    var r := entries[i := e];
    assert r[i].key == entries[i].key;
    if HasKey(entries, key) {
      var k :| 0 <= k < |entries| && SameKey(entries[k].key, key);
      assert SameKey(r[k].key, key);
    }
    if HasKey(r, key) {
      var k :| 0 <= k < |r| && SameKey(r[k].key, key);
      assert SameKey(entries[k].key, key);
    }
  }

  lemma {:induction false} PutAllIsDict(news: seq<Entry>)
    ensures IsDict(PutAll([], news), news) && SameKeys(PutAll([], news), news)
    decreases |news|
  {
    if news != [] {
      var n := |news| - 1;
      PutAllIsDict(news[..n]);
      PutAllStep([], news[..n], news[n]);
      DictStep(PutAll([], news[..n]), news[..n], news[n]);
      assert news[..n] + [news[n]] == news;
    }
  }

  /** A dictionary has each key once, in the order of the first fields with it, and under
      it the value of the last field. */
  lemma DictIsRead(fields: Fields)
    ensures IsDict(Meaning(SrcDict(fields)).entries, Assignments(fields))
  {
    EntriesArePutAll(fields, []);
    PutAllIsDict(Assignments(fields));
  }

  function TwoFieldText(k: Tok, v: Tok, l: Tok, w: Tok): Fields {
    MoreFields(k, SrcScalar(v), LastField(l, SrcScalar(w)))
  }

  lemma TwoFieldTokens(k: Tok, v: Tok, l: Tok, w: Tok)
    ensures Tokens(SrcDict(TwoFieldText(k, v, l, w))) == [Str("{"), k, Str("="), v, Str(","), l, Str("="), w, Str("}")]
  {
    assert FieldsTokens(LastField(l, SrcScalar(w))) == [l, EQUALS, w, CLOSE];
    assert FieldsTokens(TwoFieldText(k, v, l, w)) == [k, EQUALS, v, COMMA, l, EQUALS, w, CLOSE];
  }

  /** `{k = v, l = w}`: a second field with the same text or number as its key replaces the
      first. */
  lemma TwoFields(k: Tok, v: Tok, l: Tok, w: Tok)
    requires WellFormed(SrcScalar(v)) && WellFormed(SrcScalar(w))
    ensures ParseAll([Str("{"), k, Str("="), v, Str(","), l, Str("="), w, Str("}")]) ==
            Ok(Dict(if k == l && (k.Str? || k.Num? || k.Flt?) then [Entry(k, Scalar(w))]
                    else [Entry(k, Scalar(v)), Entry(l, Scalar(w))]))
  {
    var s := SrcDict(TwoFieldText(k, v, l, w));
    TwoFieldTokens(k, v, l, w);
    assert WellFormedFields(LastField(l, SrcScalar(w))) && WellFormed(s);
    ValueIsRead(s, []);
    assert Tokens(s) + [] == Tokens(s);
    PutTwo(k, Scalar(v), l, Scalar(w));
    EntriesArePutAll(TwoFieldText(k, v, l, w), []);
    var news := [Entry(k, Scalar(v)), Entry(l, Scalar(w))];
    assert Assignments(TwoFieldText(k, v, l, w)) == news;
    assert news[1..] == [Entry(l, Scalar(w))] && news[1..][1..] == [];
    assert PutAll([], news) == Put(Put([], k, Scalar(v)), l, Scalar(w));
  }

  lemma PutTwo(k: Tok, v: Value, l: Tok, w: Value)
    ensures Put(Put([], k, v), l, w) == if SameKey(k, l) then [Entry(k, w)] else [Entry(k, v), Entry(l, w)]
  {
    assert [Entry(k, v)][1..] == [];
  }

  // ----- what is refused ---------------------------------------------------

  /** One of gdb's messages is raised as it is, and a repeat count is no value. */
  lemma RefusedAtOnce(ts: seq<Tok>)
    requires ts != []
    ensures ts[0].Exc? ==> ParseAll(ts) == Err(Raised(ts[0]))
    ensures ts[0].Rep? ==> ParseAll(ts) == Err(Unsupported)
  {
  }

  lemma LeftOver(s: Src, rest: seq<Tok>)
    requires WellFormed(s) && rest != []
    ensures ParseAll(Tokens(s) + rest) == Err(UnexpectedInput)
  {
    ValueIsRead(s, rest);
  }

  /** A dictionary fails as its fields do. */
  lemma FieldsFail(ts: seq<Tok>, fields: seq<Tok>, e: Error)
    requires ts == [OPEN] + fields && |fields| > 1 && fields[1] == EQUALS && ParseFields(fields, []) == Err(e)
    ensures ParseAll(ts) == Err(e)
  {
    assert ts[1..] == fields && ts[2] == EQUALS;
  }

  lemma OneFieldThen(key: Tok, s: Src, tail: seq<Tok>, e: Error)
    requires WellFormed(s) && tail != [] && tail[0] != CLOSE
    requires if tail[0] != COMMA then e == AssertionError
             else ParseFields(tail[1..], [Entry(key, Meaning(s))]) == Err(e)
    ensures ParseAll([OPEN, key, EQUALS] + (Tokens(s) + tail)) == Err(e)
  {
    var after := Tokens(s) + tail;
    ValueIsRead(s, tail);
    FieldsStep(key, Meaning(s), after, tail, []);
    FieldsFail([OPEN, key, EQUALS] + after, [key, EQUALS] + after, e);
  }

  /** The assertions of the two loops. */
  lemma WrongSeparator(key: Tok, s: Src, sep: Tok, rest: seq<Tok>)
    requires WellFormed(s) && sep != COMMA && sep != CLOSE
    ensures ParseAll([OPEN, key, EQUALS] + (Tokens(s) + ([sep] + rest))) == Err(AssertionError)
  {
    OneFieldThen(key, s, [sep] + rest, AssertionError);
  }

  lemma WrongListSeparator(item: Tok, sep: Tok, rest: seq<Tok>)
    requires sep != COMMA && sep != CLOSE && sep != EQUALS && !sep.Rep?
    ensures ParseAll([OPEN, item, sep] + rest) == Err(AssertionError)
  {
    var ts, tail := [OPEN, item, sep] + rest, [sep] + rest;
    ItemsStep(Once(item), tail, []);
    assert ts[1..] == [item] + tail && ts[2] == sep;
  }

  lemma MissingEquals(key: Tok, s: Src, key': Tok, sep: Tok, rest: seq<Tok>)
    requires WellFormed(s) && sep != EQUALS
    ensures ParseAll([OPEN, key, EQUALS] + (Tokens(s) + ([COMMA, key', sep] + rest))) == Err(AssertionError)
  {
    var tail := [COMMA, key', sep] + rest;
    assert tail[1..] == [key', sep] + rest;
    OneFieldThen(key, s, tail, AssertionError);
  }

  /** What follows does not change a result, unless the tokens ran out. */
  lemma {:induction false} MoreChangesNothing(ts: seq<Tok>, more: seq<Tok>)
    ensures match ParseValue(ts)
            case Ok(p) => ParseValue(ts + more) == Ok(Parsed(p.value, p.rest + more))
            case Err(e) => e != IndexError ==> ParseValue(ts + more) == Err(e)
    decreases |ts|, 1
  {
    if ts != [] {
      assert (ts + more)[0] == ts[0] && (ts + more)[1..] == ts[1..] + more;
      if ts[0] == OPEN && |ts| >= 3 {
        assert (ts + more)[2] == ts[2];
        if ts[2] == EQUALS {
          MoreFieldsChangeNothing(ts[1..], [], more);
        } else {
          MoreItemsChangeNothing(ts[1..], [], more);
        }
      }
    }
  }

  lemma {:induction false} MoreItemsChangeNothing(ts: seq<Tok>, items: seq<Tok>, more: seq<Tok>)
    ensures match ParseItems(ts, items)
            case Ok(p) => ParseItems(ts + more, items) == Ok(Parsed(p.value, p.rest + more))
            case Err(e) => e != IndexError ==> ParseItems(ts + more, items) == Err(e)
    decreases |ts|
  {
    if |ts| >= 2 {
      var rest := if ts[1].Rep? then ts[2..] else ts[1..];
      var items' := items + [ts[0]] + if ts[1].Rep? then Copies(ts[0], ts[1].count - 1) else [];
      assert (ts + more)[0] == ts[0] && (ts + more)[1] == ts[1];
      assert (if ts[1].Rep? then (ts + more)[2..] else (ts + more)[1..]) == rest + more;
      if rest != [] {
        assert (rest + more)[0] == rest[0] && (rest + more)[1..] == rest[1..] + more;
        if rest[0] == COMMA {
          MoreItemsChangeNothing(rest[1..], items', more);
        }
      }
    }
  }

  lemma {:induction false} MoreFieldsChangeNothing(ts: seq<Tok>, entries: seq<Entry>, more: seq<Tok>)
    ensures match ParseFields(ts, entries)
            case Ok(p) => ParseFields(ts + more, entries) == Ok(Parsed(p.value, p.rest + more))
            case Err(e) => e != IndexError ==> ParseFields(ts + more, entries) == Err(e)
    decreases |ts|, 0
  {
    if |ts| >= 2 && ts[1] == EQUALS {
      assert (ts + more)[0] == ts[0] && (ts + more)[1] == ts[1] && (ts + more)[2..] == ts[2..] + more;
      MoreChangesNothing(ts[2..], more);
      if ParseValue(ts[2..]).Ok? && ParseValue(ts[2..]).value.rest != [] {
        var p := ParseValue(ts[2..]).value;
        assert (p.rest + more)[0] == p.rest[0] && (p.rest + more)[1..] == p.rest[1..] + more;
        if p.rest[0] == COMMA {
          MoreFieldsChangeNothing(p.rest[1..], Put(entries, ts[0], p.value), more);
        }
      }
    }
  }

  /** Tokens that ran out can always be completed. */
  lemma {:induction false} CompleteValue(ts: seq<Tok>) returns (more: seq<Tok>)
    requires ParseValue(ts) == Err(IndexError)
    ensures more != [] && ParseValue(ts + more).Ok? && ParseValue(ts + more).value.rest == []
    decreases |ts|, 1
  {
    if ts == [] {
      more := [Num(0)];
    } else if |ts| < 3 {
      more := if |ts| == 1 then [Num(0), CLOSE] else [CLOSE];
      OneItem((ts + more)[1..], []);
    } else {
      if ts[2] == EQUALS {
        more := CompleteFields(ts[1..], []);
      } else {
        more := CompleteItems(ts[1..], []);
      }
      assert (ts + more)[0] == ts[0] && (ts + more)[1..] == ts[1..] + more && (ts + more)[2] == ts[2];
    }
  }

  lemma {:induction false} CompleteItems(ts: seq<Tok>, items: seq<Tok>) returns (more: seq<Tok>)
    requires ParseItems(ts, items) == Err(IndexError)
    ensures more != [] && ParseItems(ts + more, items).Ok? && ParseItems(ts + more, items).value.rest == []
    decreases |ts|
  {
    if |ts| < 2 {
      more := if ts == [] then [Num(0), CLOSE] else [CLOSE];
      OneItem(ts + more, items);
    } else {
      var run := if ts[1].Rep? then Repeated(ts[0], ts[1].count) else Once(ts[0]);
      var rest := ts[|RunTokens(run)|..];
      assert ts == RunTokens(run) + rest;
      more := [CLOSE];
      if rest != [] {
        BrokenItems(ts, run, rest, items);
        more := CompleteItems(rest[1..], items + RunItems(run));
        assert (rest + more)[1..] == rest[1..] + more;
      }
      ItemsStep(run, rest + more, items);
      RegroupTwo(RunTokens(run), rest, more);
    }
  }

  lemma OneItem(ts: seq<Tok>, items: seq<Tok>)
    requires |ts| == 2 && ts[1] == CLOSE
    ensures ParseItems(ts, items).Ok? && ParseItems(ts, items).value.rest == []
  {
  }

  lemma BrokenItems(ts: seq<Tok>, run: Run, rest: seq<Tok>, items: seq<Tok>)
    requires ParseItems(ts, items) == Err(IndexError) && ts == RunTokens(run) + rest && rest != []
    requires |ts| >= 2 && (run.Repeated? <==> ts[1].Rep?)
    ensures rest[0] == COMMA && ParseItems(rest[1..], items + RunItems(run)) == Err(IndexError)
  {
    assert rest[0] == ts[|RunTokens(run)|];
    assert ts[|RunTokens(run)|..] == rest;
    if !rest[0].Rep? {
      ItemsStep(run, rest, items);
    }
  }

  lemma {:induction false} CompleteFields(ts: seq<Tok>, entries: seq<Entry>) returns (more: seq<Tok>)
    requires ParseFields(ts, entries) == Err(IndexError)
    ensures more != [] && ParseFields(ts + more, entries).Ok? && ParseFields(ts + more, entries).value.rest == []
    decreases |ts|, 0
  {
    if |ts| < 2 {
      more := (if ts == [] then [Num(0), EQUALS] else [EQUALS]) + [Num(0), CLOSE];
      OneField(ts + more, entries);
    } else {
      var key, after := ts[0], ts[2..];
      assert ts == [key, EQUALS] + after;
      if ParseValue(after).Err? {
        more := CompleteLastValue(key, after, entries);
      } else {
        var p := ParseValue(after).value;
        more := [CLOSE];
        if p.rest != [] {
          more := CompleteFields(p.rest[1..], Put(entries, key, p.value));
        }
        FieldIsFollowed(key, after, p, more, entries);
      }
      RegroupTwo([key, EQUALS], after, more);
    }
  }

  lemma FieldIsFollowed(key: Tok, after: seq<Tok>, p: Parsed<Value>, more: seq<Tok>, entries: seq<Entry>)
    requires ParseValue(after) == Ok(p)
    requires if p.rest == [] then more == [CLOSE]
             else p.rest[0] == COMMA
                  && var r := ParseFields(p.rest[1..] + more, Put(entries, key, p.value)); r.Ok? && r.value.rest == []
    ensures ParseFields([key, EQUALS] + (after + more), entries).Ok?
    ensures ParseFields([key, EQUALS] + (after + more), entries).value.rest == []
  {
    if p.rest != [] {
      assert (p.rest + more)[1..] == p.rest[1..] + more;
    }
    MoreChangesNothing(after, more);
    FieldsStep(key, p.value, after + more, p.rest + more, entries);
  }

  lemma OneField(ts: seq<Tok>, entries: seq<Entry>)
    requires |ts| == 4 && ts[1] == EQUALS && ts[2] == Num(0) && ts[3] == CLOSE
    ensures ParseFields(ts, entries).Ok? && ParseFields(ts, entries).value.rest == []
  {
    assert ts[2..][1..] == [CLOSE];
  }

  lemma {:induction false} CompleteLastValue(key: Tok, after: seq<Tok>, entries: seq<Entry>) returns (more: seq<Tok>)
    requires ParseValue(after) == Err(IndexError)
    ensures more != [] && ParseFields([key, EQUALS] + (after + more), entries).Ok?
    ensures ParseFields([key, EQUALS] + (after + more), entries).value.rest == []
    decreases |after|, 2
  {
    var end := CompleteValue(after);
    more := end + [CLOSE];
    MoreChangesNothing(after + end, [CLOSE]);
    RegroupTwo(after, end, [CLOSE]);
    FieldsStep(key, ParseValue(after + end).value.value, after + more, [] + [CLOSE], entries);
  }

  /** An index error means exactly that the text broke off: with something behind them
      the same tokens are a value. */
  lemma IndexErrorIffBrokenOff(ts: seq<Tok>)
    ensures ParseValue(ts) == Err(IndexError) <==>
            !ParseValue(ts).Ok? && exists more: seq<Tok> :: ParseValue(ts + more).Ok?
  {
    if ParseValue(ts) == Err(IndexError) {
      var more := CompleteValue(ts);
      assert ParseValue(ts + more).Ok?;
    }
    if !ParseValue(ts).Ok? && exists more: seq<Tok> :: ParseValue(ts + more).Ok? {
      var more: seq<Tok> :| ParseValue(ts + more).Ok?;
      MoreChangesNothing(ts, more);
    }
  }
}
