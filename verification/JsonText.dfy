/** The shape of text the journal printer writes, one key and value a line, and its tokens. */
module JsonText {
  import opened Options
  import opened Jsmn

  /** A number, a quoted name, or a list of numbers. */
  datatype Value = Number(text: string) | Quoted(text: string) | Numbers(items: seq<string>)

  datatype Entry = Entry(key: string, value: Value)

  /** Characters a JSON string can hold as they are. */
  predicate Plain(s: string) {
    forall i :: 0 <= i < |s| ==> s[i] != '\"' && s[i] != '\\' && s[i] != '\0'
  }

  predicate NumberChar(c: char) { '0' <= c <= '9' || c == '-' }

  predicate Numeral(s: string) {
    |s| > 0 && forall i :: 0 <= i < |s| ==> NumberChar(s[i])
  }

  predicate Printable(e: Entry) {
    && Plain(e.key)
    && match e.value {
         case Number(s) => Numeral(s)
         case Quoted(s) => Plain(s)
         case Numbers(items) => forall i :: 0 <= i < |items| ==> Numeral(items[i])
       }
  }

  function Join(items: seq<string>): string {
    if items == [] then ""
    else if |items| == 1 then items[0]
    else items[0] + "," + Join(items[1..])
  }

  function Print(v: Value): string {
    match v
    case Number(s) => s
    case Quoted(s) => "\"" + s + "\""
    case Numbers(items) => "[" + Join(items) + "]"
  }

  function Body(e: Entry): string {
    "    \"" + e.key + "\":" + Print(e.value)
  }

  /** The entries, separated by a comma and a line break. */
  function Inner(es: seq<Entry>): string {
    if es == [] then ""
    else if |es| == 1 then Body(es[0])
    else Body(es[0]) + ",\n" + Inner(es[1..])
  }

  function Document(es: seq<Entry>): string {
    "{\n" + Inner(es) + "\n}"
  }

  /** What a reader finds at the tokens of a value; an array comes first as a whole. */
  function ValueWords(v: Value): seq<string> {
    match v
    case Number(s) => [s]
    case Quoted(s) => [s]
    case Numbers(items) => [Print(v)] + items
  }

  function Words(es: seq<Entry>): seq<string> {
    if es == [] then [] else [es[0].key] + ValueWords(es[0].value) + Words(es[1..])
  }

  // ----- the text at a position

  predicate At(js: string, p: nat, s: string) {
    p + |s| <= |js| && js[p..p + |s|] == s
  }

  lemma AtParts(js: string, p: nat, a: string, b: string)
    requires At(js, p, a + b)
    ensures At(js, p, a) && At(js, p + |a|, b) && p + |a| + |b| <= |js|
  {
    var s := a + b;
    assert js[p..p + |a|] == s[..|a|];
    assert js[p + |a|..p + |a| + |b|] == s[|a|..];
  }

  lemma AtChar(js: string, p: nat, s: string, i: nat)
    requires At(js, p, s) && i < |s|
    ensures p + i < |js| && js[p + i] == s[i]
  {
    assert js[p..p + |s|][i] == s[i];
  }

  /** The closed tokens `ts` lie over the words `ws`. */
  ghost predicate Spells(js: string, ts: seq<Token>, ws: seq<string>) {
    && |ts| == |ws|
    && forall i :: 0 <= i < |ts| ==> ts[i].start <= ts[i].end <= |js| && js[ts[i].start..ts[i].end] == ws[i]
  }

  lemma SpellsMore(js: string, a: seq<Token>, v: seq<string>, b: seq<Token>, w: seq<string>)
    requires Spells(js, a, v) && Spells(js, b, w)
    ensures Spells(js, a + b, v + w)
  {
  }

  /** Tokenizing comes from position `p` with tokens `ts` to `q` with `more` behind them. */
  ghost predicate Leads(js: string, p: nat, ts: seq<Token>, q: nat, more: seq<Token>, cap: nat) {
    Tokenize(js, p, ts, cap) == Tokenize(js, q, ts + more, cap)
  }

  lemma LeadsOn(js: string, p: nat, ts: seq<Token>, q: nat, a: seq<Token>, r: nat, b: seq<Token>, cap: nat)
    requires Leads(js, p, ts, q, a, cap) && Leads(js, q, ts + a, r, b, cap)
    ensures Leads(js, p, ts, r, a + b, cap)
  {
    hide Tokenize;
    assert ts + a + b == ts + (a + b);
  }

  // ----- one piece at a time

  lemma {:induction false} SkipBlanks(js: string, p: nat, n: nat, ts: seq<Token>, cap: nat)
    requires p + n <= |js| && forall i :: p <= i < p + n ==> Skipped(js[i])
    ensures Leads(js, p, ts, p + n, [], cap)
    decreases n
  {
    assert ts + [] == ts;
    if n > 0 {
      SkipBlanks(js, p + 1, n - 1, ts, cap);
    }
  }

  /** Blanks, colons and commas behind what was read change nothing. */
  lemma ThenBlanks(js: string, p: nat, ts: seq<Token>, q: nat, more: seq<Token>, s: string, cap: nat)
    requires Leads(js, p, ts, q, more, cap) && At(js, q, s)
    requires forall i :: 0 <= i < |s| ==> Skipped(s[i])
    ensures Leads(js, p, ts, q + |s|, more, cap)
  {
    hide Tokenize, Skipped;
    forall i | q <= i < q + |s| ensures Skipped(js[i]) {
      AtChar(js, q, s, i - q);
    }
    SkipBlanks(js, q, |s|, ts + more, cap);
    LeadsOn(js, p, ts, q, more, q + |s|, [], cap);
    assert more + [] == more;
  }

  lemma {:induction false} QuoteFound(js: string, p: nat, s: string, k: nat)
    requires At(js, p, s + "\"") && Plain(s) && k <= |s|
    ensures FindQuote(js, p + k) == Closed(p + |s|)
    decreases |s| - k
  {
    AtChar(js, p, s + "\"", k);
    if k < |s| {
      QuoteFound(js, p, s, k + 1);
    }
  }

  lemma StringToken(js: string, p: nat, s: string, ts: seq<Token>, cap: nat) returns (t: Token)
    requires At(js, p, "\"" + s + "\"") && Plain(s) && |ts| < cap
    ensures Leads(js, p, ts, p + |s| + 2, [t], cap)
    ensures Spells(js, [t], [s])
  {
    t := Token(String, p + 1, p + 1 + |s|);
    assert "\"" + s + "\"" == "\"" + (s + "\"");
    AtParts(js, p, "\"", s + "\"");
    AtChar(js, p, "\"", 0);
    QuoteFound(js, p + 1, s, 0);
    AtParts(js, p + 1, s, "\"");
    assert Next(js, p, ts, cap) == More(p + |s| + 2, ts + [t]);
  }

  lemma {:induction false} NumberEnds(js: string, p: nat, s: string, k: nat)
    requires At(js, p, s) && Numeral(s) && k <= |s|
    requires p + |s| < |js| && EndsPrimitive(js[p + |s|])
    ensures PrimitiveEnd(js, p + k) == Some(p + |s|)
    decreases |s| - k
  {
    if k < |s| {
      AtChar(js, p, s, k);
      NumberEnds(js, p, s, k + 1);
    }
  }

  lemma NumberToken(js: string, p: nat, s: string, ts: seq<Token>, cap: nat) returns (t: Token)
    requires At(js, p, s) && Numeral(s) && |ts| < cap
    requires p + |s| < |js| && EndsPrimitive(js[p + |s|])
    ensures Leads(js, p, ts, p + |s|, [t], cap)
    ensures Spells(js, [t], [s])
  {
    t := Token(Primitive, p, p + |s|);
    NumberEnds(js, p, s, 0);
    AtChar(js, p, s, 0);
    assert Next(js, p, ts, cap) == More(p + |s|, ts + [t]);
  }

  lemma {:induction false} ItemTokens(js: string, p: nat, items: seq<string>, ts: seq<Token>, cap: nat)
    returns (more: seq<Token>)
    requires At(js, p, Join(items)) && |ts| + |items| <= cap
    requires forall i :: 0 <= i < |items| ==> Numeral(items[i])
    requires p + |Join(items)| < |js| && js[p + |Join(items)|] == ']'
    ensures Leads(js, p, ts, p + |Join(items)|, more, cap)
    ensures Spells(js, more, items) && |more| == |items|
    decreases |items|
  {
    hide At, Spells, Leads, Tokenize, Numeral;
    if items == [] {
      more := [];
      NothingRead(js, p, ts, cap);
    } else if |items| == 1 {
      var t := NumberToken(js, p, items[0], ts, cap);
      more := [t];
      assert items == [items[0]];
    } else {
      var s := items[0];
      var rest := Join(items[1..]);
      assert Join(items) == s + ("," + rest) by { assert s + "," + rest == s + ("," + rest); }
      AtParts(js, p, s, "," + rest);
      AtParts(js, p + |s|, ",", rest);
      AtChar(js, p + |s|, ",", 0);
      var t := NumberToken(js, p, s, ts, cap);
      ThenBlanks(js, p, ts, p + |s|, [t], ",", cap);
      var tail := ItemTokens(js, p + |s| + 1, items[1..], ts + [t], cap);
      more := [t] + tail;
      SpellsMore(js, [t], [s], tail, items[1..]);
      assert [s] + items[1..] == items;
      LeadsOn(js, p, ts, p + |s| + 1, [t], p + |Join(items)|, tail, cap);
    }
  }

  lemma NothingRead(js: string, p: nat, ts: seq<Token>, cap: nat)
    ensures Leads(js, p, ts, p, [], cap) && Spells(js, [], [])
  {
    assert ts + [] == ts;
  }

  lemma ClosesArray(js: string, p: nat, ts: seq<Token>, start: nat, items: seq<Token>, cap: nat)
    requires p < |js| && js[p] == ']' && start < |js|
    requires forall i :: 0 <= i < |items| ==> !items[i].Open()
    ensures Tokenize(js, p, ts + [Token(Array, start, -1)] + items, cap)
         == Tokenize(js, p + 1, ts + ([Token(Array, start, p + 1)] + items), cap)
  {
    var all := ts + [Token(Array, start, -1)] + items;
    LastOpenAt(ts, Token(Array, start, -1), items);
    var closed := ts + ([Token(Array, start, p + 1)] + items);
    assert all[|ts| := all[|ts|].(end := p + 1)] == closed;
    assert Next(js, p, all, cap) == More(p + 1, closed);
  }

  lemma LastOpenAt(ts: seq<Token>, t: Token, items: seq<Token>)
    requires t.Open() && forall i :: 0 <= i < |items| ==> !items[i].Open()
    ensures LastOpen(ts + [t] + items) == |ts|
  {
    var all := ts + [t] + items;
    SameLastOpen(all, |ts|);
    assert all[..|ts| + 1][|ts|] == t;
  }

  /** The tokens of words are closed. */
  lemma SpellsClosed(js: string, ts: seq<Token>, ws: seq<string>)
    requires Spells(js, ts, ws)
    ensures |ts| == |ws| && forall i :: 0 <= i < |ts| ==> !ts[i].Open()
  {
  }

  lemma OpensArray(js: string, p: nat, ts: seq<Token>, cap: nat)
    requires p < |js| && js[p] == '[' && |ts| < cap
    ensures Leads(js, p, ts, p + 1, [Token(Array, p, -1)], cap)
  {
    assert Next(js, p, ts, cap) == More(p + 1, ts + [Token(Array, p, -1)]);
  }

  /** Brackets around items. */
  lemma AroundItems(js: string, p: nat, q: nat, ts: seq<Token>, items: seq<Token>, words: seq<string>, cap: nat)
    requires p < q < |js| && js[p] == '[' && js[q] == ']' && |ts| < cap
    requires Leads(js, p + 1, ts + [Token(Array, p, -1)], q, items, cap) && Spells(js, items, words)
    ensures Leads(js, p, ts, q + 1, [Token(Array, p, q + 1)] + items, cap)
  {
    SpellsClosed(js, items, words);
    hide Tokenize, Spells;
    OpensArray(js, p, ts, cap);
    ClosesArray(js, q, ts, p, items, cap);
  }

  lemma ArrayParts(js: string, p: nat, words: seq<string>)
    requires At(js, p, Print(Numbers(words)))
    ensures var q := p + 1 + |Join(words)|;
      && p < q < |js| && js[p] == '[' && At(js, p + 1, Join(words)) && js[q] == ']'
      && p + |Print(Numbers(words))| == q + 1
  {
    hide Join, At;
    var inner := Join(words);
    assert Print(Numbers(words)) == "[" + (inner + "]");
    AtParts(js, p, "[", inner + "]");
    AtChar(js, p, "[", 0);
    AtParts(js, p + 1, inner, "]");
    AtChar(js, p + 1 + |inner|, "]", 0);
  }

  lemma ArraySpelled(js: string, p: nat, words: seq<string>, items: seq<Token>)
    requires At(js, p, Print(Numbers(words))) && Spells(js, items, words)
    ensures Spells(js, [Token(Array, p, p + |Print(Numbers(words))|)] + items, ValueWords(Numbers(words)))
  {
    hide Spells, At, Print;
    var t := Token(Array, p, p + |Print(Numbers(words))|);
    SpellsOne(js, p, Print(Numbers(words)), t);
    SpellsMore(js, [t], [Print(Numbers(words))], items, words);
  }

  lemma ArrayTokens(js: string, p: nat, words: seq<string>, ts: seq<Token>, cap: nat) returns (more: seq<Token>)
    requires At(js, p, Print(Numbers(words))) && |ts| + 1 + |words| <= cap
    requires forall i :: 0 <= i < |words| ==> Numeral(words[i])
    ensures Leads(js, p, ts, p + |Print(Numbers(words))|, more, cap)
    ensures Spells(js, more, ValueWords(Numbers(words)))
  {
    hide *;
    ArrayParts(js, p, words);
    var q := p + 1 + |Join(words)|;
    var items := ItemTokens(js, p + 1, words, ts + [Token(Array, p, -1)], cap);
    AroundItems(js, p, q, ts, items, words, cap);
    more := [Token(Array, p, q + 1)] + items;
    ArraySpelled(js, p, words, items);
  }

  lemma SpellsOne(js: string, p: nat, s: string, t: Token)
    requires At(js, p, s) && t.start == p && t.end == p + |s|
    ensures Spells(js, [t], [s])
  {
  }

  lemma ValueTokens(js: string, p: nat, v: Value, ts: seq<Token>, cap: nat) returns (more: seq<Token>)
    requires At(js, p, Print(v)) && Printable(Entry("", v)) && |ts| + |ValueWords(v)| <= cap
    requires p + |Print(v)| < |js| && EndsPrimitive(js[p + |Print(v)|])
    ensures Leads(js, p, ts, p + |Print(v)|, more, cap)
    ensures Spells(js, more, ValueWords(v))
  {
    hide At, Spells, Leads, Tokenize, Numeral, EndsPrimitive;
    match v {
      case Number(s) =>
        var t := NumberToken(js, p, s, ts, cap);
        more := [t];
      case Quoted(s) =>
        var t := StringToken(js, p, s, ts, cap);
        more := [t];
      case Numbers(items) =>
        more := ArrayTokens(js, p, items, ts, cap);
    }
  }

  /** Where the parts of a line lie. */
  lemma BodyParts(js: string, p: nat, e: Entry)
    requires At(js, p, Body(e))
    ensures At(js, p, "    ") && At(js, p + 4, "\"" + e.key + "\"")
    ensures At(js, p + 6 + |e.key|, ":") && At(js, p + 7 + |e.key|, Print(e.value))
    ensures |Body(e)| == 7 + |e.key| + |Print(e.value)|
  {
    hide Print, At;
    var quoted := "\"" + e.key + "\"";
    var v := Print(e.value);
    assert Body(e) == "    " + (quoted + (":" + v));
    AtParts(js, p, "    ", quoted + (":" + v));
    AtParts(js, p + 4, quoted, ":" + v);
    AtParts(js, p + 6 + |e.key|, ":", v);
  }

  lemma BodyTokens(js: string, p: nat, e: Entry, ts: seq<Token>, cap: nat) returns (more: seq<Token>)
    requires At(js, p, Body(e)) && Printable(e) && |ts| + 1 + |ValueWords(e.value)| <= cap
    requires p + |Body(e)| < |js| && EndsPrimitive(js[p + |Body(e)|])
    ensures Leads(js, p, ts, p + |Body(e)|, more, cap)
    ensures Spells(js, more, [e.key] + ValueWords(e.value))
  {
    hide At, Spells, Leads, Tokenize, EndsPrimitive, Print, ValueWords, Body;
    BodyParts(js, p, e);
    NothingRead(js, p, ts, cap);
    ThenBlanks(js, p, ts, p, [], "    ", cap);
    assert ts + [] == ts;
    var t := StringToken(js, p + 4, e.key, ts, cap);
    var q := p + 6 + |e.key|;
    ThenBlanks(js, p + 4, ts, q, [t], ":", cap);
    var value := ValueTokens(js, q + 1, e.value, ts + [t], cap);
    more := [t] + value;
    SpellsMore(js, [t], [e.key], value, ValueWords(e.value));
    LeadsOn(js, p + 4, ts, q + 1, [t], p + |Body(e)|, value, cap);
    LeadsOn(js, p, ts, p + 4, [], p + |Body(e)|, more, cap);
    assert [] + more == more;
  }

  lemma FirstEntry(es: seq<Entry>)
    requires es != []
    ensures Words(es) == [es[0].key] + ValueWords(es[0].value) + Words(es[1..])
    ensures |es| == 1 ==> Inner(es) == Body(es[0]) && Words(es) == [es[0].key] + ValueWords(es[0].value)
    ensures |es| > 1 ==> Inner(es) == Body(es[0]) + (",\n" + Inner(es[1..]))
  {
    hide Body, ValueWords;
    if |es| == 1 {
      assert Words(es[1..]) == [];
    } else {
      assert Body(es[0]) + ",\n" + Inner(es[1..]) == Body(es[0]) + (",\n" + Inner(es[1..]));
    }
  }

  lemma {:induction false} InnerTokens(js: string, p: nat, es: seq<Entry>, ts: seq<Token>, cap: nat)
    returns (more: seq<Token>)
    requires es != [] && At(js, p, Inner(es)) && |ts| + |Words(es)| <= cap
    requires forall i :: 0 <= i < |es| ==> Printable(es[i])
    requires p + |Inner(es)| < |js| && EndsPrimitive(js[p + |Inner(es)|])
    ensures Leads(js, p, ts, p + |Inner(es)|, more, cap)
    ensures Spells(js, more, Words(es))
    decreases |es|
  {
    hide At, Leads, Tokenize, Printable, ValueWords, Body, Spells, Inner, Words;
    FirstEntry(es);
    var e := es[0];
    var words := [e.key] + ValueWords(e.value);
    if |es| == 1 {
      more := BodyTokens(js, p, e, ts, cap);
    } else {
      var rest := Inner(es[1..]);
      AtParts(js, p, Body(e), ",\n" + rest);
      var q := p + |Body(e)|;
      AtParts(js, q, ",\n", rest);
      AtChar(js, q, ",\n", 0);
      var first := BodyTokens(js, p, e, ts, cap);
      SpellsClosed(js, first, words);
      ThenBlanks(js, p, ts, q, first, ",\n", cap);
      var tail := InnerTokens(js, q + 2, es[1..], ts + first, cap);
      more := first + tail;
      SpellsMore(js, first, words, tail, Words(es[1..]));
      LeadsOn(js, p, ts, q + 2, first, p + |Inner(es)|, tail, cap);
    }
  }

  lemma ClosesObject(js: string, p: nat, more: seq<Token>, cap: nat)
    requires p + 1 == |js| && js[p] == '}' && forall i :: 0 <= i < |more| ==> !more[i].Open()
    ensures Tokenize(js, p, [Token(Object, 0, -1)] + more, cap) == Ok([Token(Object, 0, p + 1)] + more)
  {
    var open := Token(Object, 0, -1);
    var all := [open] + more;
    LastOpenAt([], open, more);
    assert [] + [open] + more == all;
    var closed := [Token(Object, 0, p + 1)] + more;
    assert all[0 := all[0].(end := p + 1)] == closed;
    assert Next(js, p, all, cap) == More(p + 1, closed);
    assert forall i :: 0 <= i < |closed| ==> !closed[i].Open();
  }

  /** The whole text: its first token is the object, the others lie over the keys and values in order. */
  lemma DocumentTokens(es: seq<Entry>, cap: nat) returns (ts: seq<Token>)
    requires es != [] && forall i :: 0 <= i < |es| ==> Printable(es[i])
    requires 1 + |Words(es)| <= cap
    ensures Tokenize(Document(es), 0, [], cap) == Ok(ts)
    ensures Spells(Document(es), ts, [Document(es)] + Words(es))
  {
    hide Printable, Inner, Words, Spells;
    var js := Document(es);
    var inner := Inner(es);
    assert js == "{\n" + (inner + "\n}");
    assert At(js, 0, js);
    AtParts(js, 0, "{\n", inner + "\n}");
    AtParts(js, 2, inner, "\n}");
    var q := 2 + |inner|;
    AtChar(js, 0, "{\n", 0);
    AtChar(js, 0, "{\n", 1);
    AtChar(js, q, "\n}", 0);
    AtChar(js, q, "\n}", 1);
    ts := ObjectTokens(js, es, cap);
  }

  lemma OpensObject(js: string, cap: nat)
    requires |js| > 2 && js[0] == '{' && js[1] == '\n' && cap > 0
    ensures Tokenize(js, 0, [], cap) == Tokenize(js, 2, [Token(Object, 0, -1)], cap)
  {
    var open := [Token(Object, 0, -1)];
    assert Next(js, 0, [], cap) == More(1, open);
    assert Next(js, 1, open, cap) == More(2, open);
  }

  lemma ObjectTokens(js: string, es: seq<Entry>, cap: nat) returns (ts: seq<Token>)
    requires es != [] && (forall i :: 0 <= i < |es| ==> Printable(es[i])) && 1 + |Words(es)| <= cap
    requires |js| == |Inner(es)| + 4 && js[0] == '{' && js[1] == '\n' && At(js, 2, Inner(es))
    requires js[|js| - 2] == '\n' && js[|js| - 1] == '}'
    ensures Tokenize(js, 0, [], cap) == Ok(ts)
    ensures Spells(js, ts, [js] + Words(es))
  {
    hide Printable, Inner, Words, Spells, At;
    var open := [Token(Object, 0, -1)];
    var q := |js| - 2;
    OpensObject(js, cap);
    var more := InnerTokens(js, 2, es, open, cap);
    assert Next(js, q, open + more, cap) == More(q + 1, open + more);
    SpellsClosed(js, more, Words(es));
    ClosesObject(js, q + 1, more, cap);
    var t := Token(Object, 0, |js|);
    ts := [t] + more;
    assert Spells(js, [t], [js]) by { AtAll(js); SpellsOne(js, 0, js, t); }
    SpellsMore(js, [t], [js], more, Words(es));
  }

  lemma AtAll(js: string)
    ensures At(js, 0, js)
  {
  }
}
