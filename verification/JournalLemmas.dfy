/** What the journal keeps: reading back the text written for a request gives the request. */
module JournalLemmas {
  import opened Bytes
  import opened Options
  import opened Decimal
  import opened Intervals
  import opened Jsmn
  import opened JsonText
  import opened FieldNames
  import opened Journal

  /** A request as the program holds it: names are C strings in their arrays, bounds are 32-bit words. Quotes and
      backslashes in a name are not escaped by the printer. */
  predicate Storable(r: Request) {
    && Plain(r.sourceName) && |r.sourceName| < MAX_PATH
    && Plain(r.destinationName) && |r.destinationName| < MAX_PATH
    && r.number < 0x8000_0000_0000_0000
    && (r.file.Some? ==> Bounded(r.file.value.missing))
  }

  predicate Bounded(gs: seq<Interval>) {
    forall i :: 0 <= i < |gs| ==> gs[i].start < U32 && gs[i].end < U32
  }

  // ----- the gap list

  predicate NoComma(s: string) { forall i :: 0 <= i < |s| ==> s[i] != ',' }

  lemma {:induction false} ScanItem(s: string, rest: string, tmp: string, first: string, odd: bool)
    requires NoComma(s)
    ensures ScanGaps(s + "," + rest, tmp, first, odd) == ScanGaps("," + rest, tmp + s, first, odd)
    decreases |s|
  {
    if s == "" {
      assert s + "," + rest == "," + rest && tmp + s == tmp;
    } else {
      var all := s + "," + rest;
      assert all[1..] == s[1..] + "," + rest;
      assert tmp + [s[0]] + s[1..] == tmp + s;
      ScanItem(s[1..], rest, tmp + [s[0]], first, odd);
    }
  }

  lemma SignedNumeral(v: uint32)
    ensures Numeral(Signed(v)) && NoComma(Signed(v))
  {
  }

  lemma ScanBound(v: uint32, rest: string, first: string, odd: bool)
    ensures var s := Signed(v);
      ScanGaps(s + "," + rest, "", first, odd) ==
        if odd then [Interval(ToUint32(Atol(first)), v)] + ScanGaps(rest, "", first, false)
        else ScanGaps(rest, "", s, true)
  {
    hide Atol, ToUint32;
    var s := Signed(v);
    SignedNumeral(v);
    SignedBack(v);
    ScanItem(s, rest, "", first, odd);
    assert "" + s == s && ("," + rest)[1..] == rest;
  }

  lemma {:induction false} GapsScanned(gs: seq<Interval>, first: string)
    requires Bounded(gs)
    ensures ScanGaps(GapsText(gs), "", first, false) == gs
    decreases |gs|
  {
    hide Atol, ToUint32, Signed;
    if gs != [] {
      var g := gs[0];
      var a := Signed(g.start);
      var b := Signed(g.end);
      var rest := GapsText(gs[1..]);
      assert GapsText(gs) == a + "," + (b + "," + rest);
      ScanBound(g.start, b + "," + rest, first, false);
      ScanBound(g.end, rest, a, true);
      SignedBack(g.start);
      GapsScanned(gs[1..], a);
    }
  }

  lemma {:induction false} GapsJoined(gs: seq<Interval>)
    requires gs != []
    ensures GapsText(gs) == Join(Bounds(gs)) + ","
    decreases |gs|
  {
    hide Signed;
    var a := Signed(Gap32(gs[0].start));
    var b := Signed(Gap32(gs[0].end));
    var items := Bounds(gs);
    var rest := Bounds(gs[1..]);
    assert items[1..] == [b] + rest && items[1..][1..] == rest;
    if |gs| > 1 {
      GapsJoined(gs[1..]);
      assert Join(items) == a + "," + (b + "," + Join(rest));
      assert a + "," + (b + "," + Join(rest)) + "," == a + "," + b + "," + (Join(rest) + ",");
    } else {
      assert rest == [] && Join(items) == a + "," + b;
      assert GapsText(gs[1..]) == "";
      assert a + "," + b + "," == a + "," + b + "," + "";
    }
  }

  /** The list printed for the gaps reads back as the same gaps in the same order. */
  lemma GapsBack(gs: seq<Interval>)
    requires Bounded(gs)
    ensures ReadGaps(Print(Numbers(Bounds(gs)))) == gs
  {
    var value := Print(Numbers(Bounds(gs)));
    var inner := Join(Bounds(gs));
    assert (value[..|value| - 1] + ",")[1..] == inner + ",";
    if gs == [] {
      assert ScanGaps(",", "", "", false) == ScanGaps(","[1..], "", "", true);
    } else {
      GapsJoined(gs);
      GapsScanned(gs, "");
    }
  }

  lemma {:induction false} BoundsNumeral(gs: seq<Interval>)
    ensures |Bounds(gs)| == 2 * |gs|
    ensures forall i :: 0 <= i < |Bounds(gs)| ==> Numeral(Bounds(gs)[i])
    decreases |gs|
  {
    if gs != [] {
      SignedNumeral(Gap32(gs[0].start));
      SignedNumeral(Gap32(gs[0].end));
      BoundsNumeral(gs[1..]);
    }
  }

  // ----- one field

  lemma NoMatch(r: Request, key: string, value: string, j: nat, onDisk: uint32)
    requires j < FIELDS && !(Name(j) <= key)
    ensures Match(r, key, value, j, onDisk) == Match(r, key, value, j + 1, onDisk)
  {
    hide Name, Assign;
  }

  lemma {:induction false} NoMoreMatches(r: Request, k: nat, value: string, j: nat, onDisk: uint32)
    requires k < FIELDS && k < j <= FIELDS
    ensures Match(r, Name(k), value, j, onDisk) == Some(r)
    decreases FIELDS - j
  {
    hide Name, Assign;
    if j < FIELDS {
      if Name(j) <= Name(k) { NamesApart(j, k); }
      NoMatch(r, Name(k), value, j, onDisk);
      hide Match;
      NoMoreMatches(r, k, value, j + 1, onDisk);
    }
  }

  lemma {:induction false} MatchesOnce(r: Request, k: nat, value: string, j: nat, onDisk: uint32)
    requires j <= k < FIELDS
    ensures Match(r, Name(k), value, j, onDisk) == Assign(r, k, value, onDisk)
    decreases k - j
  {
    hide Name, Assign;
    if j < k {
      if Name(j) <= Name(k) { NamesApart(j, k); }
      MatchesOnce(r, k, value, j + 1, onDisk);
    } else {
      var stored := Assign(r, k, value, onDisk);
      if stored.Some? {
        NoMoreMatches(stored.value, k, value, k + 1, onDisk);
      }
    }
  }

  /** A number is no field's name. */
  lemma {:induction false} NumberMatchesNothing(r: Request, key: string, value: string, j: nat, onDisk: uint32)
    requires Numeral(key) && j <= FIELDS
    ensures Match(r, key, value, j, onDisk) == Some(r)
    decreases FIELDS - j
  {
    hide Name;
    if j < FIELDS {
      assert !(Name(j) <= key);
      NumberMatchesNothing(r, key, value, j + 1, onDisk);
    }
  }

  /** The reader takes the numbers of a list for keys and values too; that changes nothing. */
  lemma {:induction false} NumbersIgnored(r: Request, gs: seq<Interval>, onDisk: uint32)
    ensures Restore(r, Bounds(gs), onDisk) == Some(r)
    decreases |gs|
  {
    hide Signed, Match;
    if gs != [] {
      var words := Bounds(gs);
      SignedNumeral(Gap32(gs[0].start));
      NumberMatchesNothing(r, words[0], words[1], 0, onDisk);
      assert words[2..] == Bounds(gs[1..]);
      NumbersIgnored(r, gs[1..], onDisk);
    }
  }

  /** The request with the first `k` fields of `src`, the others those of `r`. */
  function Upto(src: Request, r: Request, k: nat, onDisk: uint32): Request
    requires k > BASE_FIELDS ==> src.file.Some?
  {
    Request(if k > 0 then src.myId else r.myId, if k > 1 then src.destId else r.destId,
            if k > 2 then src.number else r.number, if k > 3 then src.fileSize else r.fileSize,
            if k > 4 then src.sourceName else r.sourceName,
            if k > 5 then src.destinationName else r.destinationName,
            if k > 6 then src.mode else r.mode, if k > 7 then src.paused else r.paused,
            if k > 8 then src.resentEof else r.resentEof,
            if k > 9 then src.resentFinished else r.resentFinished,
            if k > 10 then src.sentFirstRound else r.sentFirstRound,
            EntityUpto(src.local, r.local, k),
            if k > BASE_FIELDS then Some(FileUpto(src.file.value, k, onDisk)) else r.file)
  }

  function EntityUpto(e: LocalEntity, d: LocalEntity, k: nat): LocalEntity {
    LocalEntity(if k > 11 then e.eofSent else d.eofSent, if k > 12 then e.eofReceived else d.eofReceived,
                if k > 13 then e.segmentReceived else d.segmentReceived,
                if k > 14 then e.finished else d.finished, if k > 15 then e.suspended else d.suspended,
                if k > 16 then e.resumed else d.resumed,
                if k > 17 then e.metadataReceived else d.metadataReceived,
                if k > 18 then e.metadataSent else d.metadataSent)
  }

  function FileUpto(f: Saved, k: nat, onDisk: uint32): Saved {
    Saved(f.isTemp, if k > 21 then f.nextOffset else 0, if k > 22 then f.totalSize else onDisk,
          if k > 23 then f.partialSum else 0, if k > 24 then f.eofSum else 0,
          if k > 25 then f.missing else [])
  }

  lemma ByteBack(v: byte)
    ensures ToByte(Atol(Signed(v))) == v
    ensures v < 2 ==> ToBit(Atol(Signed(v))) == v && (Atol(Signed(v)) != 0) == (v == 1)
  {
    UnsignedBack(v);
  }

  /** The word a reader finds first at a value. */
  function Word(v: Value): string { ValueWords(v)[0] }

  /** Storing the printed value of field `k` brings a request with the fields before it one field further. */
  predicate AssignsUpto(src: Request, r: Request, k: nat, onDisk: uint32)
    requires k < FIELDS && (k >= BASE_FIELDS ==> src.file.Some?)
  {
    Assign(Upto(src, r, k, onDisk), k, Word(ValueOf(src, k)), onDisk) == Some(Upto(src, r, k + 1, onDisk))
  }

  lemma AssignsNames(src: Request, r: Request, onDisk: uint32)
    requires Storable(src)
    ensures AssignsUpto(src, r, 4, onDisk) && AssignsUpto(src, r, 5, onDisk)
  {
    hide Atol, EntityUpto, FileUpto, Plain;
    EntityOutside(src.local, r.local);
    assert src.sourceName[..|src.sourceName|] == src.sourceName;
    assert src.destinationName[..|src.destinationName|] == src.destinationName;
  }

  lemma AssignsIds(src: Request, r: Request, onDisk: uint32)
    requires Storable(src)
    ensures AssignsUpto(src, r, 0, onDisk) && AssignsUpto(src, r, 1, onDisk)
    ensures AssignsUpto(src, r, 2, onDisk) && AssignsUpto(src, r, 3, onDisk)
  {
    hide Atol, ToUint32, Signed, EntityUpto, FileUpto, Plain;
    EntityOutside(src.local, r.local);
    SignedBack(src.myId);
    SignedBack(src.destId);
    UnsignedBack(src.number);
    SignedBack(src.fileSize);
  }

  lemma AssignsCounters(src: Request, r: Request, onDisk: uint32)
    ensures AssignsUpto(src, r, 6, onDisk) && AssignsUpto(src, r, 7, onDisk)
    ensures AssignsUpto(src, r, 8, onDisk) && AssignsUpto(src, r, 9, onDisk) && AssignsUpto(src, r, 10, onDisk)
  {
    hide Atol, ToByte, Signed, EntityUpto, FileUpto;
    EntityOutside(src.local, r.local);
    ByteBack(src.mode);
    ByteBack(if src.paused then 1 else 0);
    ByteBack(src.resentEof);
    ByteBack(src.resentFinished);
    ByteBack(src.sentFirstRound);
  }

  lemma EntityOutside(e: LocalEntity, d: LocalEntity)
    ensures forall k :: k <= 11 ==> EntityUpto(e, d, k) == d
    ensures forall k :: k >= 19 ==> EntityUpto(e, d, k) == e
  {
  }

  lemma EntityNext(e: LocalEntity, d: LocalEntity, k: nat)
    requires 11 <= k < 19
    ensures AssignEntity(EntityUpto(e, d, k), k, Indication(e, k)) == EntityUpto(e, d, k + 1)
  {
  }

  lemma AssignsIndication(src: Request, r: Request, k: nat, onDisk: uint32)
    requires 11 <= k < 19
    ensures AssignsUpto(src, r, k, onDisk)
  {
    hide Atol, ToBit, Signed, EntityUpto, FileUpto, AssignEntity, Indication;
    ByteBack(Indication(src.local, k));
    EntityNext(src.local, r.local, k);
  }

  lemma AssignsNothing(src: Request, r: Request, onDisk: uint32)
    ensures AssignsUpto(src, r, 19, onDisk)
  {
    hide Atol, FileUpto, EntityUpto;
    EntityOutside(src.local, r.local);
  }

  lemma AssignsFile(src: Request, r: Request, k: nat, onDisk: uint32)
    requires Storable(src) && src.file.Some? && r.file.None? && 20 <= k < FIELDS
    ensures AssignsUpto(src, r, k, onDisk)
  {
    hide Atol, ToUint32, Signed, ToByte, ReadGaps, Print, Plain, Bounded, EntityUpto;
    EntityOutside(src.local, r.local);
    var f := src.file.value;
    ByteBack(f.isTemp);
    SignedBack(f.nextOffset);
    SignedBack(f.totalSize);
    SignedBack(f.partialSum);
    SignedBack(f.eofSum);
    GapsBack(f.missing);
    assert [] + f.missing == f.missing;
  }

  lemma AssignsNext(src: Request, r: Request, k: nat, onDisk: uint32)
    requires Storable(src) && r.file.None? && k < FIELDS && (k >= BASE_FIELDS ==> src.file.Some?)
    ensures AssignsUpto(src, r, k, onDisk)
  {
    hide AssignsUpto, Storable;
    if k >= 20 {
      AssignsFile(src, r, k, onDisk);
    } else if k == 19 {
      AssignsNothing(src, r, onDisk);
    } else if k >= 11 {
      AssignsIndication(src, r, k, onDisk);
    } else {
      AssignsIds(src, r, onDisk);
      AssignsNames(src, r, onDisk);
      AssignsCounters(src, r, onDisk);
    }
  }

  // ----- all fields

  lemma WordsOfEntry(r: Request, k: nat)
    requires k < FIELDS && (k >= BASE_FIELDS ==> r.file.Some?)
    ensures ValueWords(ValueOf(r, k)) ==
      [Word(ValueOf(r, k))] + if k == FIELDS - 1 then Bounds(r.file.value.missing) else []
  {
  }

  /** Reading the words of the fields from `k` on completes the request. */
  lemma {:induction false} Restores(src: Request, r: Request, k: nat, n: nat, onDisk: uint32)
    requires Storable(src) && r.file.None? && k <= n && (n == FIELDS || n == BASE_FIELDS)
    requires n == FIELDS ==> src.file.Some?
    ensures Restore(Upto(src, r, k, onDisk), Words(EntriesFrom(src, k, n)), onDisk) == Some(Upto(src, r, n, onDisk))
    decreases n - k
  {
    hide Match, Assign, Upto, Name, Word, ValueOf, Storable, Words, EntriesFrom, Restore;
    FirstWords(src, k, n);
    if k < n {
      var value := Word(ValueOf(src, k));
      MatchesOnce(Upto(src, r, k, onDisk), k, value, 0, onDisk);
      AssignsNext(src, r, k, onDisk);
      var next := Upto(src, r, k + 1, onDisk);
      if k == FIELDS - 1 {
        RestoresFirst(Upto(src, r, k, onDisk), Name(k), value, Bounds(src.file.value.missing), onDisk);
        NumbersIgnored(next, src.file.value.missing, onDisk);
      } else {
        RestoresFirst(Upto(src, r, k, onDisk), Name(k), value, Words(EntriesFrom(src, k + 1, n)), onDisk);
        Restores(src, r, k + 1, n, onDisk);
      }
    } else {
      RestoresNothing(Upto(src, r, n, onDisk), onDisk);
    }
  }

  /** The words of the fields from `k` on: a key, its value, and the others. */
  lemma FirstWords(src: Request, k: nat, n: nat)
    requires k <= n && (n == FIELDS || n == BASE_FIELDS) && (n == FIELDS ==> src.file.Some?)
    ensures k == n ==> Words(EntriesFrom(src, k, n)) == []
    ensures k < n ==>
      var rest := if k == FIELDS - 1 then Bounds(src.file.value.missing) else Words(EntriesFrom(src, k + 1, n));
      Words(EntriesFrom(src, k, n)) == [Name(k), Word(ValueOf(src, k))] + rest
  {
    hide Name, Word, ValueOf, ValueWords, Words, EntriesFrom, Bounds;
    if k < n {
      FirstField(src, k, n);
      FirstEntry(EntriesFrom(src, k, n));
      WordsOfEntry(src, k);
      var more := Words(EntriesFrom(src, k + 1, n));
      if k == FIELDS - 1 { NoWords(src, n); }
      var bounds := if k == FIELDS - 1 then Bounds(src.file.value.missing) else [];
      WordsRegroup(Name(k), Word(ValueOf(src, k)), bounds, more);
    } else {
      NoWords(src, n);
    }
  }

  lemma FirstField(src: Request, k: nat, n: nat)
    requires k < n <= FIELDS && (n > BASE_FIELDS ==> src.file.Some?)
    ensures EntriesFrom(src, k, n)[0] == Entry(Name(k), ValueOf(src, k))
    ensures EntriesFrom(src, k, n)[1..] == EntriesFrom(src, k + 1, n)
  {
    hide Name, ValueOf;
  }

  lemma NoWords(src: Request, n: nat)
    requires n <= FIELDS && (n > BASE_FIELDS ==> src.file.Some?)
    ensures Words(EntriesFrom(src, n, n)) == []
  {
  }

  lemma WordsRegroup(a: string, b: string, c: seq<string>, d: seq<string>)
    ensures [a] + ([b] + c) + d == [a, b] + (c + d) && [] + d == d && c + [] == c
  {
  }

  lemma RestoresFirst(r: Request, key: string, value: string, rest: seq<string>, onDisk: uint32)
    requires Match(r, key, value, 0, onDisk).Some?
    ensures Restore(r, [key, value] + rest, onDisk) == Restore(Match(r, key, value, 0, onDisk).value, rest, onDisk)
  {
    hide Match;
    assert ([key, value] + rest)[2..] == rest;
  }

  lemma RestoresNothing(r: Request, onDisk: uint32)
    ensures Restore(r, [], onDisk) == Some(r)
  {
  }
}
