/** The JSON tokenizer, non-strict and without parent links: what it yields for a text, as a value. */
module Jsmn {
  import opened Options

  datatype Kind = Object | Array | String | Primitive

  /** A token's place in the text; the end of an open container is -1. Strings exclude their quotes. */
  datatype Token = Token(kind: Kind, start: nat, end: int)
  {
    predicate Open() { end == -1 }

    predicate Container() { kind == Object || kind == Array }
  }

  datatype Error = NoMemory | Invalid | Partial

  datatype Result = Ok(tokens: seq<Token>) | Err(error: Error)

  /** The text ends at its length or at a NUL. */
  predicate AtEnd(js: string, p: nat) {
    p >= |js| || js[p] == '\0'
  }

  predicate Blank(c: char) { c == '\t' || c == '\r' || c == '\n' || c == ' ' }

  predicate EndsPrimitive(c: char) {
    c == ':' || Blank(c) || c == ',' || c == ']' || c == '}'
  }

  /** Where a primitive that reaches `p` ends, unless an unprintable character makes it invalid. */
  function PrimitiveEnd(js: string, p: nat): (r: Option<nat>)
    ensures r.Some? ==> p <= r.value && (p <= |js| ==> r.value <= |js|)
    ensures r.Some? && p < |js| && js[p] != '\0' && !EndsPrimitive(js[p]) ==> p < r.value
    decreases |js| - p
  {
    if AtEnd(js, p) || EndsPrimitive(js[p]) then Some(p)
    else if js[p] < ' ' || js[p] >= 127 as char then None
    else PrimitiveEnd(js, p + 1)
  }

  predicate Hex(c: char) {
    '0' <= c <= '9' || 'A' <= c <= 'F' || 'a' <= c <= 'f'
  }

  /** Behind at most `n` hexadecimal digits from `p`; anything else among them is an error. */
  function HexEnd(js: string, p: nat, n: nat): (r: Option<nat>)
    ensures r.Some? ==> p <= r.value && (p <= |js| ==> r.value <= |js|)
    decreases n
  {
    if n == 0 || AtEnd(js, p) then Some(p)
    else if !Hex(js[p]) then None
    else HexEnd(js, p + 1, n - 1)
  }

  predicate SimpleEscape(c: char) {
    c == '\"' || c == '/' || c == '\\' || c == 'b' || c == 'f' || c == 'r' || c == 'n' || c == 't'
  }

  datatype StringEnd = Closed(quote: nat) | Failed(error: Error)

  /** Where the string whose characters reach `p` closes. */
  function FindQuote(js: string, p: nat): (r: StringEnd)
    ensures r.Closed? ==> p <= r.quote < |js| && js[r.quote] == '\"'
    ensures r.Failed? ==> r.error != NoMemory
    decreases |js| - p
  {
    if AtEnd(js, p) then Failed(Partial)
    else if js[p] == '\"' then Closed(p)
    else if js[p] == '\\' && p + 1 < |js| then
      if SimpleEscape(js[p + 1]) then FindQuote(js, p + 2)
      else if js[p + 1] == 'u' then
        var q := HexEnd(js, p + 2, 4);
        if q.None? then Failed(Invalid) else FindQuote(js, q.value)
      else Failed(Invalid)
    else FindQuote(js, p + 1)
  }

  /** Index of the last open token, or -1. */
  function LastOpen(ts: seq<Token>): (i: int)
    ensures -1 <= i < |ts|
    ensures i >= 0 ==> ts[i].Open()
    ensures forall j :: i < j < |ts| ==> !ts[j].Open()
  {
    if ts == [] then -1
    else if ts[|ts| - 1].Open() then |ts| - 1
    else LastOpen(ts[..|ts| - 1])
  }

  /** Index of the last object or array that is still open, or -1. */
  function LastOpenContainer(ts: seq<Token>): (i: int)
    ensures -1 <= i < |ts|
    ensures i >= 0 ==> ts[i].Open() && ts[i].Container()
    ensures forall j :: i < j < |ts| ==> !(ts[j].Open() && ts[j].Container())
  {
    if ts == [] then -1
    else if ts[|ts| - 1].Open() && ts[|ts| - 1].Container() then |ts| - 1
    else LastOpenContainer(ts[..|ts| - 1])
  }

  /** A closing bracket at `p` closes the last open container, which must be of its kind. */
  function Close(ts: seq<Token>, kind: Kind, p: nat): Option<seq<Token>> {
    var i := LastOpen(ts);
    if i < 0 || ts[i].kind != kind then None else Some(ts[i := ts[i].(end := p + 1)])
  }

  predicate Skipped(c: char) { Blank(c) || c == ':' || c == ',' }

  /** One turn of the main loop: on to position `p` with these tokens, or out with an error. */
  datatype Step = More(p: nat, tokens: seq<Token>) | Stop(error: Error)

  function Add(ts: seq<Token>, cap: nat, t: Token, p: nat): Step {
    if |ts| >= cap then Stop(NoMemory) else More(p, ts + [t])
  }

  function Bracket(c: char): Kind { if c == '{' || c == '}' then Object else Array }

  /** What the character at `p` leads to, with `ts` read so far and room for `cap` tokens. */
  function Next(js: string, p: nat, ts: seq<Token>, cap: nat): (r: Step)
    requires !AtEnd(js, p)
    ensures r.More? ==> p < r.p <= |js|
  {
    var c := js[p];
    if c == '{' || c == '[' then Add(ts, cap, Token(Bracket(c), p, -1), p + 1)
    else if c == '}' || c == ']' then
      var closed := Close(ts, Bracket(c), p);
      if closed.None? then Stop(Invalid) else More(p + 1, closed.value)
    else if c == '\"' then
      match FindQuote(js, p + 1)
      case Failed(e) => Stop(e)
      case Closed(q) => Add(ts, cap, Token(String, p + 1, q), q + 1)
    else if Skipped(c) then More(p + 1, ts)
    else
      var q := PrimitiveEnd(js, p);
      if q.None? then Stop(Invalid) else Add(ts, cap, Token(Primitive, p, q.value), q.value)
  }

  /** The tokens of the text from `p` on, behind those in `ts`, with room for `cap` in all. */
  function Tokenize(js: string, p: nat, ts: seq<Token>, cap: nat): Result
    decreases |js| - p
  {
    if AtEnd(js, p) then
      if LastOpen(ts) >= 0 then Err(Partial) else Ok(ts)
    else
      match Next(js, p, ts, cap)
      case Stop(e) => Err(e)
      case More(q, ts') => Tokenize(js, q, ts', cap)
  }

  /** One turn in counting mode: on to `p` with `found` more tokens, or out with an error. */
  datatype CountStep = Counted(p: nat, found: nat) | Broken(error: Error)

  /** Without a token array brackets are not matched and nothing runs out. */
  function CountNext(js: string, p: nat): (r: CountStep)
    requires !AtEnd(js, p)
    ensures r.Counted? ==> p < r.p <= |js|
  {
    var c := js[p];
    if c == '{' || c == '[' then Counted(p + 1, 1)
    else if c == '}' || c == ']' || Skipped(c) then Counted(p + 1, 0)
    else if c == '\"' then
      match FindQuote(js, p + 1)
      case Failed(e) => Broken(e)
      case Closed(q) => Counted(q + 1, 1)
    else
      var q := PrimitiveEnd(js, p);
      if q.None? then Broken(Invalid) else Counted(q.value, 1)
  }

  datatype CountResult = Count(n: nat) | Bad(error: Error)

  function CountOnly(js: string, p: nat, count: nat): CountResult
    decreases |js| - p
  {
    if AtEnd(js, p) then Count(count)
    else
      match CountNext(js, p)
      case Broken(e) => Bad(e)
      case Counted(q, n) => CountOnly(js, q, count + n)
  }

  // ----- the lexical rules

  /** A primitive is a stretch of printable characters other than blanks, colons, commas and closing brackets; it ends
      at the first of these, at a NUL, or with the text. */
  lemma {:induction false} PrimitiveEndIff(js: string, p: nat, q: nat)
    requires p <= q <= |js|
    ensures PrimitiveEnd(js, p) == Some(q) <==>
      && (forall i :: p <= i < q ==>
            32 < js[i] as int < 127 && js[i] != ':' && js[i] != ',' && js[i] != ']' && js[i] != '}')
      && (q == |js| || js[q] in {'\0', '\t', '\r', '\n', ' ', ':', ',', ']', '}'})
    decreases q - p
  {
    if p < q { PrimitiveEndIff(js, p + 1, q); }
  }

  /** Four hexadecimal digits. */
  predicate FourHex(s: string) {
    |s| == 4 && forall i :: 0 <= i < 4 ==> s[i] in "0123456789ABCDEFabcdef"
  }

  /** Characters and whole escapes that a string can go on with from `p` to `q`. */
  predicate StringText(js: string, p: nat, q: nat)
    requires q <= |js|
    decreases q - p
  {
    p == q ||
    (p < q && js[p] != '\"' && js[p] != '\0' &&
       if js[p] != '\\' then StringText(js, p + 1, q)
       else
         || (p + 2 <= q && js[p + 1] in "\"\\/bfnrt" && StringText(js, p + 2, q))
         || (p + 6 <= q && js[p + 1] == 'u' && FourHex(js[p + 2..p + 6]) && StringText(js, p + 6, q)))
  }

  /** A string closes at the first quote that is not part of an escape. */
  lemma {:induction false} FindQuoteIff(js: string, p: nat, q: nat)
    requires p <= q < |js|
    ensures FindQuote(js, p) == Closed(q) <==> js[q] == '\"' && StringText(js, p, q)
    decreases q - p
  {
    if p < q && js[p] != '\"' && js[p] != '\0' {
      if js[p] != '\\' {
        FindQuoteIff(js, p + 1, q);
      } else if SimpleEscape(js[p + 1]) {
        if p + 2 <= q { FindQuoteIff(js, p + 2, q); }
      } else if js[p + 1] == 'u' {
        HexFour(js, p + 2);
        if p + 6 <= q { FindQuoteIff(js, p + 6, q); }
      }
    }
  }

  lemma HexDigits(c: char)
    ensures Hex(c) <==> c in "0123456789ABCDEFabcdef"
  {
  }

  lemma {:induction false} HexRun(js: string, p: nat, n: nat)
    ensures HexEnd(js, p, n) == Some(p + n) || HexEnd(js, p, n).None? || AtEnd(js, HexEnd(js, p, n).value)
    ensures p + n <= |js| && (forall i :: p <= i < p + n ==> Hex(js[i])) ==> HexEnd(js, p, n) == Some(p + n)
    ensures p + n <= |js| && HexEnd(js, p, n) == Some(p + n) ==>
      AtEnd(js, p + n) || forall i :: p <= i < p + n ==> Hex(js[i])
    decreases n
  {
    if n > 0 { HexRun(js, p + 1, n - 1); }
  }

  lemma HexFour(js: string, p: nat)
    ensures p + 4 <= |js| && FourHex(js[p..p + 4]) ==> HexEnd(js, p, 4) == Some(p + 4)
    ensures HexEnd(js, p, 4).Some? && !(p + 4 <= |js| && FourHex(js[p..p + 4])) ==> AtEnd(js, HexEnd(js, p, 4).value)
  {
    HexRun(js, p, 4);
    hide HexEnd, Hex;
    if p + 4 <= |js| {
      var s := js[p..p + 4];
      forall i | 0 <= i < 4 ensures Hex(js[p + i]) <==> s[i] in "0123456789ABCDEFabcdef" { HexDigits(s[i]); }
      assert forall i :: p <= i < p + 4 ==> js[i] == s[i - p];
    }
  }

  /** Between tokens tabs, line ends, blanks, colons and commas are passed over. */
  lemma SeparatorsSkipped(js: string, p: nat, ts: seq<Token>, cap: nat)
    requires p < |js| && js[p] in {'\t', '\r', '\n', ' ', ':', ','}
    ensures Next(js, p, ts, cap) == More(p + 1, ts)
  {
  }

  /** When tokenizing succeeds, counting the same text succeeds with the same number. */
  lemma {:induction false} CountingAgrees(js: string, p: nat, ts: seq<Token>, cap: nat)
    requires Tokenize(js, p, ts, cap).Ok?
    ensures CountOnly(js, p, |ts|) == Count(|Tokenize(js, p, ts, cap).tokens|)
    decreases |js| - p
  {
    if !AtEnd(js, p) {
      var next := Next(js, p, ts, cap);
      assert CountNext(js, p) == Counted(next.p, |next.tokens| - |ts|);
      CountingAgrees(js, next.p, next.tokens, cap);
    }
  }

  /** What counting is for: an array as large as the count never runs out, and more room changes nothing. */
  lemma {:induction false} CountIsEnough(js: string, p: nat, ts: seq<Token>, cap: nat, more: nat)
    requires CountOnly(js, p, |ts|).Count? && CountOnly(js, p, |ts|).n <= cap <= more
    ensures Tokenize(js, p, ts, cap) != Err(NoMemory)
    ensures Tokenize(js, p, ts, more) == Tokenize(js, p, ts, cap)
    decreases |js| - p
  {
    if !AtEnd(js, p) {
      var found := CountNext(js, p);
      CountGrows(js, found.p, |ts| + found.found);
      var next := Next(js, p, ts, cap);
      assert Next(js, p, ts, more) == next && next != Stop(NoMemory);
      if next.More? {
        assert |next.tokens| == |ts| + found.found;
        CountIsEnough(js, next.p, next.tokens, cap, more);
      }
    }
  }

  lemma {:induction false} CountGrows(js: string, p: nat, count: nat)
    requires CountOnly(js, p, count).Count?
    ensures count <= CountOnly(js, p, count).n
    decreases |js| - p
  {
    if !AtEnd(js, p) {
      CountGrows(js, CountNext(js, p).p, count + CountNext(js, p).found);
    }
  }

  // ----- structure of the tokens

  predicate Opens(kind: Kind, c: char) { (kind == Object && c == '{') || (kind == Array && c == '[') }

  predicate Closes(kind: Kind, c: char) { (kind == Object && c == '}') || (kind == Array && c == ']') }

  /** A token lies in the text read so far; closed containers sit between matching brackets, strings between quotes. */
  predicate Placed(js: string, t: Token, p: nat) {
    && t.start <= p <= |js|
    && (t.Open() ==> t.start < p && Opens(t.kind, js[t.start]))
    && (!t.Open() ==> t.start <= t.end <= p)
    && (!t.Open() && t.Container() ==>
          t.start + 2 <= t.end && Opens(t.kind, js[t.start]) && Closes(t.kind, js[t.end - 1]))
    && (t.kind.String? ==> 1 <= t.start && t.end < p && js[t.start - 1] == '\"' && js[t.end] == '\"')
    && (t.kind.Primitive? ==> t.start < t.end)
  }

  /** Of two tokens the later one starts later, and lies behind the earlier or inside it. */
  predicate Apart(a: Token, b: Token) {
    && a.start < b.start
    && (!a.Open() ==> a.end <= b.start || (!b.Open() && b.end <= a.end))
    && (!a.Open() && b.Open() ==> a.end <= b.start)
  }

  ghost predicate Structured(js: string, ts: seq<Token>, p: nat) {
    && (forall i :: 0 <= i < |ts| ==> Placed(js, ts[i], p) && ts[i].start < p + 1)
    && (forall i, j :: 0 <= i < j < |ts| ==> Apart(ts[i], ts[j]))
  }

  /** All starts lie strictly before the position reached. */
  ghost predicate StartsBefore(ts: seq<Token>, p: nat) {
    forall i :: 0 <= i < |ts| ==> ts[i].start < p
  }

  lemma MoreText(js: string, ts: seq<Token>, p: nat, q: nat)
    requires Structured(js, ts, p) && p <= q <= |js|
    ensures Structured(js, ts, q)
    ensures StartsBefore(ts, p) ==> StartsBefore(ts, q)
  {
  }

  lemma Appended(js: string, ts: seq<Token>, p: nat, t: Token, q: nat)
    requires Structured(js, ts, p) && StartsBefore(ts, p) && p <= q <= |js|
    requires Placed(js, t, q) && p <= t.start < q
    ensures Structured(js, ts + [t], q) && StartsBefore(ts + [t], q)
  {
    MoreText(js, ts, p, q);
    forall i | 0 <= i < |ts| ensures Apart(ts[i], t) {
      assert Placed(js, ts[i], p);
    }
  }

  lemma ClosedAt(js: string, ts: seq<Token>, p: nat, kind: Kind)
    requires Structured(js, ts, p) && StartsBefore(ts, p) && p < |js| && Closes(kind, js[p])
    requires Close(ts, kind, p).Some?
    ensures var ts' := Close(ts, kind, p).value; Structured(js, ts', p + 1) && StartsBefore(ts', p + 1)
  {
    var i := LastOpen(ts);
    var ts' := Close(ts, kind, p).value;
    assert Placed(js, ts[i], p);
    forall j | 0 <= j < |ts'| ensures Placed(js, ts'[j], p + 1) {
      assert Placed(js, ts[j], p);
    }
    forall j, k | 0 <= j < k < |ts'| ensures Apart(ts'[j], ts'[k]) {
      assert Apart(ts[j], ts[k]) && Placed(js, ts[k], p);
    }
  }

  lemma NextStructured(js: string, p: nat, ts: seq<Token>, cap: nat)
    requires Structured(js, ts, p) && StartsBefore(ts, p) && !AtEnd(js, p)
    requires Next(js, p, ts, cap).More?
    ensures var r := Next(js, p, ts, cap);
      Structured(js, r.tokens, r.p) && StartsBefore(r.tokens, r.p) && (|ts| <= cap ==> |r.tokens| <= cap)
  {
    hide Structured, StartsBefore;
    var c := js[p];
    if c == '{' || c == '[' {
      Appended(js, ts, p, Token(Bracket(c), p, -1), p + 1);
    } else if c == '}' || c == ']' {
      ClosedAt(js, ts, p, Bracket(c));
    } else if c == '\"' {
      var q := FindQuote(js, p + 1).quote;
      Appended(js, ts, p, Token(String, p + 1, q), q + 1);
    } else if Skipped(c) {
      MoreText(js, ts, p, p + 1);
    } else {
      var q := PrimitiveEnd(js, p).value;
      Appended(js, ts, p, Token(Primitive, p, q), q);
    }
  }

  /** On success the result is well structured: tokens in the text, starts increasing, any two disjoint or nested,
      every container between its brackets, none left open. */
  lemma {:induction false} TokensStructured(js: string, p: nat, ts: seq<Token>, cap: nat)
    requires p <= |js| && Structured(js, ts, p) && StartsBefore(ts, p)
    requires Tokenize(js, p, ts, cap).Ok?
    ensures var r := Tokenize(js, p, ts, cap).tokens;
      Structured(js, r, |js|) && LastOpen(r) == -1 && (|ts| <= cap ==> |r| <= cap)
    decreases |js| - p
  {
    if AtEnd(js, p) {
      MoreText(js, ts, p, |js|);
    } else {
      NextStructured(js, p, ts, cap);
      var next := Next(js, p, ts, cap);
      TokensStructured(js, next.p, next.tokens, cap);
    }
  }

  // ----- the parser as the code runs it

  /** A token of the caller's array: unused ones hold anything, `size` counts children. */
  datatype Slot = Slot(kind: Kind, start: int, end: int, size: nat)

  /** The first slots of the array are the tokens `ts`, whatever their sizes. */
  ghost predicate Holds(slots: seq<Slot>, ts: seq<Token>) {
    && |ts| <= |slots|
    && forall i :: 0 <= i < |ts| ==>
         slots[i].kind == ts[i].kind && slots[i].start == ts[i].start && slots[i].end == ts[i].end
  }

  function Code(e: Error): int {
    match e
    case NoMemory => -1
    case Invalid => -2
    case Partial => -3
  }

  /** What the parser returns for these outcomes. */
  function ResultCode(r: Result): int { if r.Ok? then |r.tokens| else Code(r.error) }

  function CountCode(r: CountResult): int { if r.Count? then r.n else Code(r.error) }

  /** Tokens behind `from` that are not open do not matter for the last open one. */
  lemma {:induction false} SameLastOpen(ts: seq<Token>, from: nat)
    requires from < |ts|
    requires forall j :: from < j < |ts| ==> !ts[j].Open()
    ensures LastOpen(ts) == LastOpen(ts[..from + 1])
    decreases |ts|
  {
    if from + 1 == |ts| {
      assert ts[..from + 1] == ts;
    } else {
      var front := ts[..|ts| - 1];
      assert front[..from + 1] == ts[..from + 1];
      SameLastOpen(front, from);
    }
  }

  class Parser {
    var pos: nat
    var toknext: nat
    var toksuper: int

    constructor ()
      ensures pos == 0 && toknext == 0 && toksuper == -1
    {
      pos, toknext, toksuper := 0, 0, -1;
    }

    /** Allocates and fills the next token, if there is room. */
    method AllocToken(tokens: array<Slot>, kind: Kind, start: nat, end: int) returns (ok: bool)
      modifies this`toknext, tokens
      ensures ok == (old(toknext) < tokens.Length)
      ensures !ok ==> toknext == old(toknext) && tokens[..] == old(tokens[..])
      ensures ok ==> toknext == old(toknext) + 1
      ensures ok ==> tokens[..] == old(tokens[..])[old(toknext) := Slot(kind, start, end, 0)]
    {
      if toknext >= tokens.Length {
        return false;
      }
      tokens[toknext] := Slot(kind, start, end, 0);
      toknext := toknext + 1;
      ok := true;
    }

    /** Scans a primitive; leaves `pos` on its last character. */
    method ParsePrimitive(js: string, tokens: array?<Slot>, ghost ts: seq<Token>) returns (r: int)
      requires !AtEnd(js, pos) && !EndsPrimitive(js[pos])
      requires tokens != null ==> toknext == |ts| && Holds(tokens[..], ts)
      modifies this`pos, this`toknext, tokens
      ensures tokens == null ==> toknext == old(toknext)
      ensures var q := PrimitiveEnd(js, old(pos));
        && (q.None? ==> r == Code(Invalid))
        && (q.Some? && tokens != null && |ts| >= tokens.Length ==> r == Code(NoMemory))
        && (q.Some? && (tokens == null || |ts| < tokens.Length) ==> r == 0 && pos + 1 == q.value)
        && (r == 0 && tokens != null ==>
              var ts' := ts + [Token(Primitive, old(pos), q.value)];
              toknext == |ts'| && Holds(tokens[..], ts'))
    {
      var start := pos;
      while pos < |js| && js[pos] != '\0'
        invariant start <= pos <= |js| && PrimitiveEnd(js, start) == PrimitiveEnd(js, pos)
        invariant toknext == old(toknext) && (tokens != null ==> tokens[..] == old(tokens[..]))
        decreases |js| - pos
      {
        if EndsPrimitive(js[pos]) {
          break;
        }
        if js[pos] < ' ' || js[pos] >= 127 as char {
          pos := start;
          return Code(Invalid);
        }
        pos := pos + 1;
      }
      assert PrimitiveEnd(js, start) == Some(pos) && start < pos;
      if tokens == null {
        pos := pos - 1;
        return 0;
      }
      var ok := AllocToken(tokens, Primitive, start, pos);
      if !ok {
        pos := start;
        return Code(NoMemory);
      }
      pos := pos - 1;
      r := 0;
    }

    /** Behind a backslash: leaves `pos` on the last character of the escape. */
    method ParseEscape(js: string) returns (ok: bool)
      requires pos + 1 < |js| && js[pos] == '\\'
      modifies this`pos
      ensures ok ==> old(pos) < pos && FindQuote(js, old(pos)) == FindQuote(js, pos + 1)
      ensures !ok ==> FindQuote(js, old(pos)) == Failed(Invalid)
    {
      pos := pos + 1;
      if js[pos] == 'u' {
        pos := pos + 1;
        ghost var first := pos;
        var i := 0;
        while i < 4 && pos < |js| && js[pos] != '\0'
          invariant i <= 4 && first <= pos && HexEnd(js, first, 4) == HexEnd(js, pos, 4 - i)
        {
          if !Hex(js[pos]) {
            return false;
          }
          pos := pos + 1;
          i := i + 1;
        }
        pos := pos - 1;
        return true;
      }
      return SimpleEscape(js[pos]);
    }

    /** Scans a string from its opening quote; leaves `pos` on the closing one. */
    method ParseString(js: string, tokens: array?<Slot>, ghost ts: seq<Token>) returns (r: int)
      requires pos < |js|
      requires tokens != null ==> toknext == |ts| && Holds(tokens[..], ts)
      modifies this`pos, this`toknext, tokens
      ensures tokens == null ==> toknext == old(toknext)
      ensures var q := FindQuote(js, old(pos) + 1);
        && (q.Failed? ==> r == Code(q.error))
        && (q.Closed? && tokens != null && |ts| >= tokens.Length ==> r == Code(NoMemory))
        && (q.Closed? && (tokens == null || |ts| < tokens.Length) ==> r == 0 && pos == q.quote)
        && (r == 0 && tokens != null ==>
              var ts' := ts + [Token(String, old(pos) + 1, q.quote)];
              toknext == |ts'| && Holds(tokens[..], ts'))
    {
      var start := pos;
      pos := pos + 1;
      while pos < |js| && js[pos] != '\0'
        invariant start < pos && FindQuote(js, start + 1) == FindQuote(js, pos)
        invariant toknext == old(toknext) && (tokens != null ==> tokens[..] == old(tokens[..]))
        decreases |js| - pos
      {
        if js[pos] == '\"' {
          if tokens == null {
            return 0;
          }
          var ok := AllocToken(tokens, String, start + 1, pos);
          if !ok {
            pos := start;
            return Code(NoMemory);
          }
          return 0;
        }
        if js[pos] == '\\' && pos + 1 < |js| {
          var ok := ParseEscape(js);
          if !ok {
            pos := start;
            return Code(Invalid);
          }
        }
        pos := pos + 1;
      }
      pos := start;
      r := Code(Partial);
    }

    /** The token array holds the tokens `ts`, and `toksuper` is one of them or -1. */
    ghost predicate At(tokens: array?<Slot>, ts: seq<Token>)
      reads this, tokens
    {
      && -1 <= toksuper < toknext
      && (tokens == null ==> toknext == 0)
      && (tokens != null ==> toknext == |ts| && Holds(tokens[..], ts))
    }

    /** One more child for the container or key `toksuper`; no token's place changes. */
    method CountChild(tokens: array<Slot>, ghost ts: seq<Token>)
      requires toknext == |ts| && Holds(tokens[..], ts) && -1 <= toksuper < toknext
      modifies tokens
      ensures Holds(tokens[..], ts)
      ensures forall i :: 0 <= i < tokens.Length ==>
        tokens[i] == old(tokens[i]).(size := old(tokens[i]).size + if i == toksuper then 1 else 0)
    {
      if toksuper != -1 {
        tokens[toksuper] := tokens[toksuper].(size := tokens[toksuper].size + 1);
      }
    }

    /** The last open token, by scanning backwards from slot `from`; -1 when there is none. */
    method ScanOpen(tokens: array<Slot>, ghost ts: seq<Token>, from: int) returns (i: int)
      requires |ts| <= tokens.Length && Holds(tokens[..], ts) && -1 <= from < |ts|
      ensures i == LastOpen(ts[..from + 1])
    {
      i := from;
      while i >= 0
        invariant -1 <= i <= from && LastOpen(ts[..from + 1]) == LastOpen(ts[..i + 1])
      {
        assert ts[..i + 1][..i] == ts[..i];
        if tokens[i].start != -1 && tokens[i].end == -1 {
          return;
        }
        i := i - 1;
      }
    }

    /** Closes token `i` and makes the last open token before it the parent. */
    method CloseToken(tokens: array<Slot>, ghost ts: seq<Token>, i: nat)
      requires toknext == |ts| && Holds(tokens[..], ts) && i == LastOpen(ts)
      modifies this`toksuper, tokens
      ensures At(tokens, ts[i := ts[i].(end := pos + 1)])
      ensures toksuper == LastOpen(ts[i := ts[i].(end := pos + 1)])
    {
      ghost var ts' := ts[i := ts[i].(end := pos + 1)];
      toksuper := -1;
      tokens[i] := tokens[i].(end := pos + 1);
      assert Holds(tokens[..], ts');
      SameLastOpen(ts', i);
      var outer := ScanOpen(tokens, ts', i);
      if outer >= 0 {
        toksuper := outer;
      }
    }

    /** A closing bracket closes the last open container and makes the one around it the parent. */
    method CloseBracket(js: string, tokens: array<Slot>, ghost ts: seq<Token>) returns (ok: bool)
      requires At(tokens, ts) && pos < |js| && (js[pos] == '}' || js[pos] == ']')
      modifies this`toksuper, tokens
      ensures var closed := Close(ts, Bracket(js[pos]), pos);
        && ok == closed.Some?
        && (ok ==> At(tokens, closed.value) && toksuper == LastOpen(closed.value))
    {
      var kind := if js[pos] == '}' then Object else Array;
      assert ts[..toknext] == ts;
      var i := ScanOpen(tokens, ts, toknext - 1);
      if i == -1 || tokens[i].kind != kind {
        return false;
      }
      CloseToken(tokens, ts, i);
      ok := true;
    }

    /** An opening bracket adds an open container and makes it the parent. */
    method OpenBracket(js: string, tokens: array<Slot>, ghost ts: seq<Token>) returns (ok: bool)
      requires At(tokens, ts) && pos < |js| && (js[pos] == '{' || js[pos] == '[')
      modifies this`toknext, this`toksuper, tokens
      ensures ok == (|ts| < tokens.Length)
      ensures ok ==> At(tokens, ts + [Token(Bracket(js[pos]), pos, -1)]) && toksuper == |ts|
    {
      ok := AllocToken(tokens, if js[pos] == '{' then Object else Array, pos, -1);
      if ok {
        ghost var ts' := ts + [Token(Bracket(js[pos]), pos, -1)];
        assert Holds(tokens[..], ts');
        CountChild(tokens, ts');
        toksuper := toknext - 1;
      }
    }

    /** After a comma behind a value, its key stops being the parent: the innermost open container is it again, if
        there is one. */
    method Comma(tokens: array<Slot>, ghost ts: seq<Token>)
      requires At(tokens, ts)
      modifies this`toksuper
      ensures At(tokens, ts)
      ensures var i := LastOpenContainer(ts);
        toksuper == if old(toksuper) == -1 || ts[old(toksuper)].Container() || i == -1 then old(toksuper) else i
    {
      if toksuper != -1 && tokens[toksuper].kind != Array && tokens[toksuper].kind != Object {
        var i := toknext - 1;
        assert ts[..i + 1] == ts;
        while i >= 0
          invariant -1 <= i < toknext && toksuper == old(toksuper)
          invariant LastOpenContainer(ts) == LastOpenContainer(ts[..i + 1])
        {
          assert ts[..i + 1][..i] == ts[..i];
          if (tokens[i].kind == Array || tokens[i].kind == Object) && tokens[i].start != -1 && tokens[i].end == -1 {
            toksuper := i;
            return;
          }
          i := i - 1;
        }
      }
    }

    /** One turn of the loop with a token array. */
    method Turn(js: string, tokens: array<Slot>, ghost ts: seq<Token>) returns (r: int, counted: nat)
      requires !AtEnd(js, pos) && At(tokens, ts)
      modifies this, tokens
      ensures var next := Next(js, old(pos), ts, tokens.Length);
        && (next.Stop? ==> r == Code(next.error))
        && (next.More? ==> r == 0 && pos + 1 == next.p && At(tokens, next.tokens) && |ts| + counted == |next.tokens|)
    {
      hide Holds;
      var c := js[pos];
      r, counted := 0, 0;
      if c == '{' || c == '[' {
        counted := 1;
        var ok := OpenBracket(js, tokens, ts);
        r := if ok then 0 else Code(NoMemory);
      } else if c == '}' || c == ']' {
        var ok := CloseBracket(js, tokens, ts);
        r := if ok then 0 else Code(Invalid);
      } else if c == '\"' {
        counted := 1;
        r := ParseString(js, tokens, ts);
        if r >= 0 {
          CountChild(tokens, Next(js, old(pos), ts, tokens.Length).tokens);
        }
      } else if c == ':' {
        toksuper := toknext - 1;
      } else if c == ',' {
        Comma(tokens, ts);
      } else if !Blank(c) {
        counted := 1;
        r := ParsePrimitive(js, tokens, ts);
        if r >= 0 {
          CountChild(tokens, Next(js, old(pos), ts, tokens.Length).tokens);
        }
      }
    }

    /** One turn of the loop in counting mode. */
    method CountingTurn(js: string) returns (r: int, counted: nat)
      requires !AtEnd(js, pos) && At(null, [])
      modifies this
      ensures At(null, [])
      ensures var next := CountNext(js, old(pos));
        && (next.Broken? ==> r == Code(next.error))
        && (next.Counted? ==> r == 0 && pos + 1 == next.p && counted == next.found)
    {
      var c := js[pos];
      r, counted := 0, 0;
      if c == '{' || c == '[' {
        counted := 1;
      } else if c == '\"' {
        counted := 1;
        r := ParseString(js, null, []);
      } else if c == ':' {
        toksuper := toknext - 1;
      } else if !(c == '}' || c == ']' || Blank(c) || c == ',') {
        counted := 1;
        r := ParsePrimitive(js, null, []);
      }
    }

    /** Reads the text into the token array, or only counts its tokens when there is none. */
    method Parse(js: string, tokens: array?<Slot>) returns (r: int)
      requires pos == 0 && toknext == 0 && toksuper == -1
      modifies this, tokens
      ensures tokens == null ==> r == CountCode(CountOnly(js, 0, 0))
      ensures tokens != null ==>
        var t := Tokenize(js, 0, [], tokens.Length);
        r == ResultCode(t) && (t.Ok? ==> r == toknext && Holds(tokens[..], t.tokens))
        && (t == Err(NoMemory) ==> r == -1) && (t == Err(Invalid) ==> r == -2) && (t == Err(Partial) ==> r == -3)
    {
      hide Next, CountNext;
      var count := 0;
      ghost var ts: seq<Token> := [];
      while pos < |js| && js[pos] != '\0'
        invariant At(tokens, ts)
        invariant tokens == null ==> ts == [] && CountOnly(js, 0, 0) == CountOnly(js, pos, count)
        invariant tokens != null ==>
          count == |ts| && Tokenize(js, 0, [], tokens.Length) == Tokenize(js, pos, ts, tokens.Length)
        decreases |js| - pos
      {
        var n;
        if tokens == null {
          r, n := CountingTurn(js);
        } else {
          ghost var next := Next(js, pos, ts, tokens.Length);
          r, n := Turn(js, tokens, ts);
          ts := if next.More? then next.tokens else ts;
        }
        if r < 0 {
          return;
        }
        count := count + n;
        pos := pos + 1;
      }
      if tokens != null {
        assert ts[..toknext] == ts;
        var i := ScanOpen(tokens, ts, toknext - 1);
        if i >= 0 {
          return Code(Partial);
        }
      }
      r := count;
    }
  }
}
