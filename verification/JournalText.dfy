/** The journal's text as a document of entries, and the round trip over it. */
module JournalText {
  import opened Bytes
  import opened Options
  import opened Decimal
  import opened Intervals
  import opened Jsmn
  import opened JsonText
  import opened FieldNames
  import opened Journal
  import opened JournalLemmas

  lemma {:induction false} LinesInner(es: seq<Entry>)
    requires es != []
    ensures Lines(es) == Inner(es) + ",\n"
    decreases |es|
  {
    hide Body;
    var first := Body(es[0]) + ",\n";
    if |es| == 1 {
      assert Lines(es[1..]) == "";
      assert Lines(es) == first + Lines(es[1..]) == first;
    } else {
      LinesInner(es[1..]);
      assert first + (Inner(es[1..]) + ",\n") == first + Inner(es[1..]) + ",\n";
    }
  }

  lemma {:induction false} LinesSplit(r: Request, k: nat, m: nat, n: nat)
    requires k <= m <= n <= FIELDS && (n > BASE_FIELDS ==> r.file.Some?)
    ensures Lines(EntriesFrom(r, k, n)) == Lines(EntriesFrom(r, k, m)) + Lines(EntriesFrom(r, m, n))
    decreases m - k
  {
    hide Body, Name, ValueOf, Lines, EntriesFrom;
    if k < m {
      LinesSplit(r, k + 1, m, n);
      FirstLine(r, k, n);
      FirstLine(r, k, m);
    } else {
      NoLines(r, k);
    }
  }

  lemma FirstLine(r: Request, k: nat, n: nat)
    requires k < n <= FIELDS && (n > BASE_FIELDS ==> r.file.Some?)
    ensures Lines(EntriesFrom(r, k, n)) ==
      Body(Entry(Name(k), ValueOf(r, k))) + ",\n" + Lines(EntriesFrom(r, k + 1, n))
  {
    hide Body, Name, ValueOf;
    assert EntriesFrom(r, k, n)[1..] == EntriesFrom(r, k + 1, n);
  }

  lemma NoLines(r: Request, k: nat)
    requires k <= FIELDS && (k > BASE_FIELDS ==> r.file.Some?)
    ensures Lines(EntriesFrom(r, k, k)) == ""
  {
  }

  lemma NumberLineShort(r: Request, k: nat)
    requires BASE_FIELDS <= k < FIELDS - 1 && r.file.Some?
    ensures |Body(Entry(Name(k), ValueOf(r, k)))| <= 64
  {
    hide Name, Signed;
    var f := r.file.value;
    SignedFits(f.isTemp);
    SignedFits(f.nextOffset);
    SignedFits(f.totalSize);
    SignedFits(f.partialSum);
    SignedFits(f.eofSum);
  }

  lemma {:induction false} FileLinesShort(r: Request, k: nat)
    requires BASE_FIELDS <= k <= FIELDS - 1 && r.file.Some?
    ensures |Lines(EntriesFrom(r, k, FIELDS - 1))| <= 66 * (FIELDS - 1 - k)
    decreases FIELDS - k
  {
    hide Body, Name, ValueOf;
    if k < FIELDS - 1 {
      NumberLineShort(r, k);
      FileLinesShort(r, k + 1);
      assert EntriesFrom(r, k, FIELDS - 1)[1..] == EntriesFrom(r, k + 1, FIELDS - 1);
    }
  }

  /** The file's part always fits its buffer. */
  lemma FileHeadFits(r: Request)
    requires r.file.Some?
    ensures |FileHead(r)| < 500
  {
    hide Name;
    FileLinesShort(r, BASE_FIELDS);
  }

  /** How many fields are printed. */
  function Printed(r: Request): (n: nat)
    ensures n == BASE_FIELDS || n == FIELDS
  {
    if r.file.Some? then FIELDS else BASE_FIELDS
  }

  /** The line of the gap list, with the bracket put over the last comma. */
  lemma GapLine(r: Request, before: string)
    requires r.file.Some? && r.file.value.missing != []
    ensures var last := Entry(Name(FIELDS - 1), ValueOf(r, FIELDS - 1));
      WriteBack(before + ("    \"" + Name(FIELDS - 1) + "\":[") + GapsText(r.file.value.missing), 1, "],\n")
        == before + Body(last) + ",\n"
  {
    hide Name, Bounds, GapsText, Join;
    var gs := r.file.value.missing;
    GapsJoined(gs);
    GapLineLayout(before, Name(FIELDS - 1), Join(Bounds(gs)));
  }

  lemma GapLineLayout(before: string, name: string, inner: string)
    ensures WriteBack(before + ("    \"" + name + "\":[") + (inner + ","), 1, "],\n")
      == before + ("    \"" + name + "\":" + ("[" + inner + "]")) + ",\n"
  {
    var text := before + ("    \"" + name + "\":[") + (inner + ",");
    var head := before + ("    \"" + name + "\":[") + inner;
    assert text == head + ",";
    assert text[..|text| - 1] == head;
    assert head + "],\n" == before + ("    \"" + name + "\":" + ("[" + inner + "]")) + ",\n";
  }

  lemma WithFileIsLines(r: Request)
    requires r.file.Some? && r.file.value.missing != [] && |BaseText(r)| < 1000
    ensures WithFile(Clip(BaseText(r), 1000), r) == "{\n" + Lines(EntriesFrom(r, 0, FIELDS))
  {
    hide Name, ValueOf, Body, GapsText, EntriesFrom;
    var l := FIELDS - 1;
    var base := Lines(EntriesFrom(r, 0, BASE_FIELDS));
    var file := Lines(EntriesFrom(r, BASE_FIELDS, l));
    FileHeadFits(r);
    var head := "    \"" + Name(l) + "\":[";
    var before := "{\n" + base + file;
    assert BaseText(r) + FileHead(r) == before + head;
    GapLine(r, before);
    LinesSplit(r, 0, BASE_FIELDS, FIELDS);
    LinesSplit(r, BASE_FIELDS, l, FIELDS);
    LastLine(r);
    var last := Body(Entry(Name(l), ValueOf(r, l))) + ",\n";
    assert "{\n" + (base + (file + last)) == before + last;
  }

  lemma LastLine(r: Request)
    requires r.file.Some?
    ensures Lines(EntriesFrom(r, FIELDS - 1, FIELDS)) == Body(Entry(Name(FIELDS - 1), ValueOf(r, FIELDS - 1))) + ",\n"
  {
    hide Name, ValueOf, Body;
    var es := EntriesFrom(r, FIELDS - 1, FIELDS);
    assert EntriesFrom(r, FIELDS, FIELDS) == [];
    assert es == [Entry(Name(FIELDS - 1), ValueOf(r, FIELDS - 1))];
    assert es[1..] == [];
    assert Lines(es[1..]) == "";
  }

  /** What the printer leaves is a document of the request's entries, unless the gap list is empty. */
  lemma WrittenIsDocument(r: Request)
    requires |BaseText(r)| < 1000 && (r.file.Some? ==> r.file.value.missing != [])
    ensures Written(r) == Document(EntriesFrom(r, 0, Printed(r)))
  {
    hide Name, ValueOf, Body, EntriesFrom, WithFile;
    var es := EntriesFrom(r, 0, Printed(r));
    if r.file.Some? {
      WithFileIsLines(r);
    }
    LinesInner(es);
    var text := "{\n" + Lines(es);
    assert text == "{\n" + Inner(es) + ",\n";
    assert text[..|text| - 2] == "{\n" + Inner(es);
  }

  // ----- reading the document

  lemma ValuePrintable(r: Request, k: nat)
    requires Storable(r) && k < FIELDS && (k >= BASE_FIELDS ==> r.file.Some?)
    ensures Printable(Entry(Name(k), ValueOf(r, k)))
  {
    hide Name, Signed, Bounds, Numeral, Plain;
    NamePlain(k);
    forall v: uint32 ensures Numeral(Signed(v)) { SignedNumeral(v); }
    DigitsNumeral(r.number);
    if r.file.Some? {
      BoundsNumeral(r.file.value.missing);
    }
  }

  lemma DigitsNumeral(n: nat)
    ensures Numeral(Digits(n))
  {
  }

  lemma {:induction false} EntriesPrintable(r: Request, k: nat, n: nat)
    requires Storable(r) && k <= n <= FIELDS && (n > BASE_FIELDS ==> r.file.Some?)
    ensures forall i :: 0 <= i < n - k ==> Printable(EntriesFrom(r, k, n)[i])
    decreases n - k
  {
    hide Name, ValueOf, Printable, Storable;
    if k < n {
      ValuePrintable(r, k);
      EntriesPrintable(r, k + 1, n);
    }
  }

  lemma {:induction false} WordCount(r: Request, k: nat, n: nat)
    requires k <= n <= FIELDS && (n > BASE_FIELDS ==> r.file.Some?)
    ensures |Words(EntriesFrom(r, k, n))| == 2 * (n - k) + if k < n == FIELDS then 2 * |r.file.value.missing| else 0
    decreases n - k
  {
    hide Name, ValueOf, ValueWords, Word;
    if k < n {
      WordCount(r, k + 1, n);
      WordsOfEntry(r, k);
      assert EntriesFrom(r, k, n)[1..] == EntriesFrom(r, k + 1, n);
      if k == FIELDS - 1 {
        BoundsNumeral(r.file.value.missing);
      }
    }
  }

  lemma SpelledWords(js: string, ts: seq<Token>, ws: seq<string>)
    requires Spells(js, ts, [js] + ws)
    ensures ts != [] && WordsAt(js, ts)[1..] == ws
  {
  }

  /** The tokens the text needs: the object, twenty or twenty-six pairs, and two numbers for each gap. */
  function TokensNeeded(r: Request): nat {
    1 + 2 * Printed(r) + if r.file.Some? then 2 * |r.file.value.missing| else 0
  }

  lemma DocumentLoads(src: Request, r: Request, onDisk: uint32)
    requires Storable(src) && r.file.None? && TokensNeeded(src) <= MAX_TOKENS
    ensures Load(Document(EntriesFrom(src, 0, Printed(src))), r, onDisk) == Some(src)
  {
    hide EntriesFrom, Restore, Storable, Upto, Printable, Words, WordsAt, Spells, Document, Tokenize;
    var n := Printed(src);
    var es := EntriesFrom(src, 0, n);
    var js := Document(es);
    EntriesPrintable(src, 0, n);
    WordCount(src, 0, n);
    var ts := DocumentTokens(es, MAX_TOKENS);
    SpelledWords(js, ts, Words(es));
    Restores(src, r, 0, n, onDisk);
    UptoEnds(src, r, onDisk);
  }

  lemma UptoEnds(src: Request, r: Request, onDisk: uint32)
    requires r.file.None?
    ensures Upto(src, r, 0, onDisk) == r && Upto(src, r, Printed(src), onDisk) == src
  {
    EntityOutside(src.local, r.local);
  }

  /** With more tokens than the array holds the text does not tokenize. */
  lemma DocumentTooLong(src: Request)
    requires Storable(src) && TokensNeeded(src) > MAX_TOKENS
    ensures Tokenize(Document(EntriesFrom(src, 0, Printed(src))), 0, [], MAX_TOKENS).Err?
  {
    hide EntriesFrom, Storable, Printable, Words, Spells, Document, Tokenize;
    var n := Printed(src);
    var es := EntriesFrom(src, 0, n);
    var js := Document(es);
    EntriesPrintable(src, 0, n);
    WordCount(src, 0, n);
    var ts := DocumentTokens(es, TokensNeeded(src));
    SpellsClosed(js, ts, [js] + Words(es));
    TooMany(js, TokensNeeded(src), MAX_TOKENS);
  }

  lemma TooMany(js: string, cap: nat, less: nat)
    requires Tokenize(js, 0, [], cap).Ok? && |Tokenize(js, 0, [], cap).tokens| > less
    ensures Tokenize(js, 0, [], less).Err?
  {
    hide Tokenize, CountOnly;
    if Tokenize(js, 0, [], less).Ok? {
      CountingAgrees(js, 0, [], cap);
      CountingAgrees(js, 0, [], less);
      TokensStructured(js, 0, [], less);
      assert false;
    }
  }

  // ----- an empty gap list

  /** The text with nothing between the list's brackets: the closing one has overwritten the opening one. */
  function Gapless(r: Request): string
    requires r.file.Some?
  {
    var es := EntriesFrom(r, 0, FIELDS - 1);
    "{\n" + (Inner(es) + (",\n    " + ("\"" + Name(FIELDS - 1) + "\"" + (":" + "]\n}"))))
  }

  lemma WrittenGapless(r: Request)
    requires |BaseText(r)| < 1000 && r.file.Some? && r.file.value.missing == []
    ensures Written(r) == Gapless(r)
  {
    hide Name, ValueOf, Body, EntriesFrom;
    var l := FIELDS - 1;
    FileHeadFits(r);
    LinesSplit(r, 0, BASE_FIELDS, l);
    var es := EntriesFrom(r, 0, l);
    LinesInner(es);
    var base := Lines(EntriesFrom(r, 0, BASE_FIELDS));
    var file := Lines(EntriesFrom(r, BASE_FIELDS, l));
    var front := "{\n" + Inner(es) + (",\n    \"" + Name(l) + "\":");
    GaplessLayout(base, file, Inner(es), Name(l));
    hide Lines, Inner;
    assert BaseText(r) + FileHead(r) + "" == front + "[";
    EndsRewritten(front);
  }

  /** Both texts up to the list's bracket. */
  lemma GaplessLayout(base: string, file: string, inner: string, name: string)
    requires base + file == inner + ",\n"
    ensures var front := "{\n" + inner + (",\n    \"" + name + "\":");
      && "{\n" + base + (file + "    \"" + name + "\":[") == front + "["
      && "{\n" + (inner + (",\n    " + ("\"" + name + "\"" + (":" + "]\n}")))) == front + "]\n}"
  {
    var front := "{\n" + inner + (",\n    \"" + name + "\":");
    assert "{\n" + base + (file + "    \"" + name + "\":[") == "{\n" + (base + file) + ("    \"" + name + "\":[");
    assert front + "[" == "{\n" + (inner + ",\n") + ("    \"" + name + "\":[");
  }

  /** The two seeks, back over the bracket and back over the comma and line break. */
  lemma EndsRewritten(front: string)
    ensures WriteBack(WriteBack(front + "[", 1, "],\n"), 2, "\n}") == front + "]\n}"
  {
    assert WriteBack(front + "[", 1, "],\n") == front + "],\n";
    assert WriteBack(front + "],\n", 2, "\n}") == front + "]\n}";
  }

  /** Where the parts of that text lie. */
  lemma GaplessParts(js: string, inner: string, quoted: string)
    requires js == "{\n" + (inner + (",\n    " + (quoted + (":" + "]\n}"))))
    ensures var q := 2 + |inner|;
      && js[0] == '{' && js[1] == '\n' && At(js, 2, inner)
      && At(js, q, ",\n    ") && js[q] == ',' && At(js, q + 6, quoted)
      && At(js, q + 6 + |quoted|, ":") && |js| == q + 10 + |quoted| && js[|js| - 3] == ']'
  {
    AtAll(js);
    hide At;
    var tail := ",\n    " + (quoted + (":" + "]\n}"));
    AtParts(js, 0, "{\n", inner + tail);
    AtParts(js, 2, inner, tail);
    AtChar(js, 0, "{\n", 0);
    AtChar(js, 0, "{\n", 1);
    GaplessTail(js, 2 + |inner|, quoted);
  }

  lemma GaplessTail(js: string, q: nat, quoted: string)
    requires At(js, q, ",\n    " + (quoted + (":" + "]\n}")))
    ensures q + 10 + |quoted| <= |js| && At(js, q, ",\n    ") && js[q] == ',' && At(js, q + 6, quoted)
    ensures At(js, q + 6 + |quoted|, ":") && js[q + 7 + |quoted|] == ']'
  {
    hide At;
    AtParts(js, q, ",\n    ", quoted + (":" + "]\n}"));
    AtParts(js, q + 6, quoted, ":" + "]\n}");
    AtParts(js, q + 6 + |quoted|, ":", "]\n}");
    AtChar(js, q, ",\n    ", 0);
    AtChar(js, q + 7 + |quoted|, "]\n}", 0);
  }

  lemma WrongBracket(js: string, p: nat, more: seq<Token>, cap: nat)
    requires p < |js| && js[p] == ']' && forall i :: 0 <= i < |more| ==> !more[i].Open()
    ensures Tokenize(js, p, [Token(Object, 0, -1)] + more, cap) == Err(Invalid)
  {
    var open := Token(Object, 0, -1);
    var all := [open] + more;
    LastOpenAt([], open, more);
    assert [] + [open] + more == all;
    assert Next(js, p, all, cap) == Stop(Invalid);
  }

  /** The bracket meets the object: the text is not JSON. */
  lemma GaplessFails(r: Request)
    requires Storable(r) && r.file.Some?
    ensures Tokenize(Gapless(r), 0, [], MAX_TOKENS) == Err(Invalid)
  {
    hide Name, ValueOf, Body, EntriesFrom, Inner, Words, Spells, Printable, Storable, At;
    var l := FIELDS - 1;
    var es := EntriesFrom(r, 0, l);
    var quoted := "\"" + Name(l) + "\"";
    var js := Gapless(r);
    GaplessParts(js, Inner(es), quoted);
    EntriesPrintable(r, 0, l);
    WordCount(r, 0, l);
    NamePlain(l);
    GaplessTokens(js, es, Name(l));
  }

  lemma GaplessTokens(js: string, es: seq<Entry>, name: string)
    requires es != [] && (forall i :: 0 <= i < |es| ==> Printable(es[i])) && |Words(es)| <= 200 && Plain(name)
    requires js == "{\n" + (Inner(es) + (",\n    " + ("\"" + name + "\"" + (":" + "]\n}"))))
    ensures Tokenize(js, 0, [], MAX_TOKENS) == Err(Invalid)
  {
    hide Inner, Words, Spells, Printable, At, Plain, Tokenize;
    var quoted := "\"" + name + "\"";
    GaplessParts(js, Inner(es), quoted);
    var cap := MAX_TOKENS;
    var open := [Token(Object, 0, -1)];
    OpensObject(js, cap);
    var q := 2 + |Inner(es)|;
    var more := InnerTokens(js, 2, es, open, cap);
    SpellsClosed(js, more, Words(es));
    ThenBlanks(js, 2, open, q, more, ",\n    ", cap);
    var t := StringToken(js, q + 6, name, open + more, cap);
    SpellsClosed(js, [t], [name]);
    LeadsOn(js, 2, open, q + 6, more, q + 8 + |name|, [t], cap);
    ThenBlanks(js, 2, open, q + 8 + |name|, more + [t], ":", cap);
    WrongBracket(js, |js| - 3, more + [t], cap);
  }

  /** The journal keeps a request exactly when it has no file, or from 1 to 101 gaps: all fields and the gaps in
      order come back. Otherwise nothing can be read from it. */
  lemma RoundTripIff(src: Request, r: Request, onDisk: uint32)
    requires Storable(src) && |BaseText(src)| < 1000 && r.file.None?
    ensures Load(Written(src), r, onDisk) ==
      if src.file.None? || 1 <= |src.file.value.missing| <= 101 then Some(src) else None
  {
    hide Storable, BaseText, Written, Tokenize, Document, EntriesFrom, Restore, WordsAt, Gapless;
    if src.file.Some? && src.file.value.missing == [] {
      WrittenGapless(src);
      GaplessFails(src);
    } else {
      WrittenIsDocument(src);
      if TokensNeeded(src) <= MAX_TOKENS {
        DocumentLoads(src, r, onDisk);
      } else {
        DocumentTooLong(src);
      }
    }
  }
}
