/** Writing and reading the journal as the code does: into an open file, and field by field into a request. */
module JournalFile {
  import opened Bytes
  import opened Options
  import opened Decimal
  import opened Intervals
  import opened Jsmn
  import opened JsonText
  import opened FieldNames
  import opened Journal

  lemma {:induction false} GapsTextSplit(a: seq<Interval>, b: seq<Interval>)
    ensures GapsText(a + b) == GapsText(a) + GapsText(b)
    decreases |a|
  {
    hide Signed;
    if a == [] {
      assert a + b == b;
    } else {
      assert (a + b)[1..] == a[1..] + b;
      GapsTextSplit(a[1..], b);
    }
  }

  /** The open file; writing continues where the last write or seek left off. */
  class Output {
    var text: string

    constructor ()
      ensures text == ""
    {
      text := "";
    }

    /** Seeks to `back` characters before the end and writes. */
    method WriteAtEnd(back: nat, s: string)
      requires back <= |text| && back <= |s|
      modifies this
      ensures text == WriteBack(old(text), back, s)
    {
      text := text[..|text| - back] + s;
    }

    /** The lines of the request itself, through a buffer of 1000 characters. */
    method AddBase(r: Request)
      modifies this
      ensures text == old(text) + Clip(BaseText(r), 1000)
    {
      text := text + Clip(BaseText(r), 1000);
    }

    /** The lines of its file: the head, then each gap in turn, then the bracket over the last character. */
    method AddFile(r: Request)
      requires r.file.Some?
      modifies this
      ensures text == WithFile(old(text), r)
    {
      hide Name, Signed, Lines, EntriesFrom;
      text := text + Clip(FileHead(r), 500);
      ghost var before := text;
      var gaps := r.file.value.missing;
      var i := 0;
      while i < |gaps|
        invariant i <= |gaps| && text == before + GapsText(gaps[..i])
      {
        assert gaps[..i + 1] == gaps[..i] + [gaps[i]];
        GapsTextSplit(gaps[..i], [gaps[i]]);
        text := text + (Signed(Gap32(gaps[i].start)) + "," + Signed(Gap32(gaps[i].end)) + ",");
        assert GapsText([gaps[i]]) == Signed(Gap32(gaps[i].start)) + "," + Signed(Gap32(gaps[i].end)) + "," + "";
        i := i + 1;
      }
      assert gaps[..i] == gaps;
      HeadNotEmpty(r);
      WriteAtEnd(1, "],\n");
    }

    /** Writes the journal of a request. */
    method WriteRequest(r: Request)
      requires text == ""
      modifies this
      ensures text == Written(r)
    {
      hide Name, Signed, Lines, EntriesFrom, FileHead;
      AddBase(r);
      assert text == Clip(BaseText(r), 1000) && |text| >= 2;
      if r.file.Some? {
        AddFile(r);
      }
      WriteAtEnd(2, "\n}");
    }
  }

  lemma HeadNotEmpty(r: Request)
    requires r.file.Some?
    ensures |Clip(FileHead(r), 500)| > 0
  {
    hide Name, Lines, EntriesFrom;
  }

  /** Splits the printed gap list at its commas. */
  method ParseGaps(value: string) returns (gaps: seq<Interval>)
    requires value != ""
    ensures gaps == ReadGaps(value)
  {
    hide Atol;
    var s := value[..|value| - 1] + ",";
    var tmp, start := "", "";
    var commas := 0;
    var i := 1;
    gaps := [];
    while i < |s|
      invariant 1 <= i <= |s| && gaps + ScanGaps(s[i..], tmp, start, commas % 2 == 1) == ReadGaps(value)
    {
      assert s[i..][1..] == s[i + 1..];
      if s[i] == ',' {
        commas := commas + 1;
        if commas % 2 == 0 {
          var gap := Interval(ToUint32(Atol(start)), ToUint32(Atol(tmp)));
          assert gaps + ([gap] + ScanGaps(s[i + 1..], "", start, false))
              == gaps + [gap] + ScanGaps(s[i + 1..], "", start, false);
          gaps := gaps + [gap];
        } else {
          start := tmp;
        }
        tmp := "";
      } else {
        tmp := tmp + [s[i]];
      }
      i := i + 1;
    }
    assert s[i..] == "";
  }

  /** The request a journal is being read into. */
  class Reader {
    var req: Request

    constructor (r: Request)
      ensures req == r
    {
      req := r;
    }

    /** Compares the key with every name and stores the value where one matches. */
    method ParseRequest(key: string, value: string, onDisk: uint32) returns (ok: bool)
      modifies this
      ensures Match(old(req), key, value, 0, onDisk) == if ok then Some(req) else None
    {
      hide Name, Assign;
      var k := 0;
      while k < FIELDS
        invariant k <= FIELDS
        invariant Match(old(req), key, value, 0, onDisk) == Match(req, key, value, k, onDisk)
      {
        if Name(k) <= key {
          var stored := Assign(req, k, value, onDisk);
          if stored.None? {
            return false;
          }
          req := stored.value;
        }
        k := k + 1;
      }
      ok := true;
    }

    /** Tokenizes the text and takes the tokens behind the first two by two. A key without a value would make the
        code look at a token it never filled; here that is an error. */
    method ReadJson(js: string, onDisk: uint32) returns (error: int)
      modifies this
      ensures Load(js, old(req), onDisk) == if error == 0 then Some(req) else None
    {
      hide Match, Tokenize;
      var p := new Parser();
      var tok := new Slot[MAX_TOKENS];
      var r := p.Parse(js, tok);
      ghost var read := Tokenize(js, 0, [], MAX_TOKENS);
      if r < 0 {
        return -1;
      }
      ghost var ts := read.tokens;
      TokensStructured(js, 0, [], MAX_TOKENS);
      ghost var words := WordsAt(js, ts);
      var i := 1;
      while i < r
        invariant r == |ts| && (r > 0 ==> 1 <= i <= r)
        invariant Holds(tok[..], ts) && Structured(js, ts, |js|) && LastOpen(ts) == -1
        invariant r > 0 ==> Load(js, old(req), onDisk) == Restore(req, words[i..], onDisk)
        invariant r == 0 ==> req == old(req)
      {
        if i + 1 == r {
          return -1;
        }
        TokenWord(js, tok[..], ts, i);
        TokenWord(js, tok[..], ts, i + 1);
        var key := js[tok[i].start..tok[i].end];
        var value := js[tok[i + 1].start..tok[i + 1].end];
        assert words[i..][2..] == words[i + 2..];
        var ok := ParseRequest(key, value, onDisk);
        if !ok {
          return -1;
        }
        i := i + 2;
      }
      error := 0;
    }
  }

  /** A filled token's place is inside the text and holds the word read there. */
  lemma TokenWord(js: string, slots: seq<Slot>, ts: seq<Token>, i: nat)
    requires Holds(slots, ts) && Structured(js, ts, |js|) && LastOpen(ts) == -1 && i < |ts|
    ensures 0 <= slots[i].start <= slots[i].end <= |js|
    ensures WordsAt(js, ts)[i] == js[slots[i].start..slots[i].end]
  {
    assert Placed(js, ts[i], |js|);
  }
}
