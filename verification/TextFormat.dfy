/** The text dump of disk_storage.cpp: decimal-tab-value lines; printing and parsing, and
    what the reader makes of the lines of any file. */
module TextFormat {
  import opened Bytes
  import opened Store
  import opened Streams

  const TAB: Byte := 9
  const MINUS: Byte := 45
  const PLUS: Byte := 43

  // ---- decimal numbers ----

  predicate IsDigit(b: Byte) {
    48 <= b <= 57
  }

  function Digits(n: nat): (ds: Str)
    ensures ds != [] && forall d | d in ds :: IsDigit(d)
  {
    if n < 10 then [48 + n] else Digits(n / 10) + [48 + n % 10]
  }

  function NatOf(ds: Str): nat
    requires forall d | d in ds :: IsDigit(d)
  {
    if ds == [] then 0
    else
      assert ds[|ds| - 1] in ds && IsDigit(ds[|ds| - 1]);
      10 * NatOf(ds[..|ds| - 1]) + (ds[|ds| - 1] as int - 48)
  }

  lemma {:induction false} NatOfDigits(n: nat)
    ensures NatOf(Digits(n)) == n
  {
    if n >= 10 {
      NatOfDigits(n / 10);
      assert Digits(n)[..|Digits(n)| - 1] == Digits(n / 10);
    } else {
      assert Digits(n)[..0] == [];
    }
  }

  /** `operator<<` of a 64-bit integer. */
  function IntText(id: NumID): (s: Str)
    ensures s != [] && TAB !in s && NEWLINE !in s
  {
    if id < 0 then [MINUS] + Digits(0 - id) else Digits(id)
  }

  function Pow10(n: nat): (p: nat)
    ensures p > 0
  {
    if n == 0 then 1 else 10 * Pow10(n - 1)
  }

  /** `ds` are the decimal digits of `n`, the most significant one first, without leading
      zeros. */
  ghost predicate Canonical(ds: Str, n: nat) {
    && ds != [] && (forall i | 0 <= i < |ds| :: 48 <= ds[i] <= 57)
    && (ds[0] == 48 <==> n == 0) && n < Pow10(|ds|)
    && forall i | 0 <= i < |ds| :: ds[|ds| - 1 - i] == 48 + (n / Pow10(i)) % 10
  }

  lemma CanonicalDigit(n: nat)
    requires n < 10
    ensures Canonical([48 + n], n)
  {
    assert Pow10(0) == 1 && Pow10(1) == 10 * Pow10(0);
  }

  lemma CanonicalSnoc(ds: Str, n: nat)
    requires n >= 10 && Canonical(ds, n / 10)
    ensures Canonical(ds + [48 + n % 10], n)
  {
    var more := ds + [48 + n % 10];
    assert Pow10(0) == 1;
    assert Pow10(|more|) == 10 * Pow10(|ds|);
    forall i | 0 <= i < |more| ensures more[|more| - 1 - i] == 48 + (n / Pow10(i)) % 10 {
      if i > 0 {
        DivBy10(n, Pow10(i - 1));
        assert more[|more| - 1 - i] == ds[|ds| - 1 - (i - 1)];
      }
    }
  }

  lemma {:induction false} DigitsAreCanonical(n: nat)
    ensures Canonical(Digits(n), n)
  {
    hide Canonical;
    if n < 10 {
      CanonicalDigit(n);
    } else {
      DigitsAreCanonical(n / 10);
      CanonicalSnoc(Digits(n / 10), n);
    }
  }

  /** A printed id: a minus sign (45) iff it is negative, then its canonical digits. */
  lemma IntTextIsCanonical(id: NumID)
    ensures var s := IntText(id);
            && (s[0] == 45 <==> id < 0)
            && if id < 0 then Canonical(s[1..], 0 - id) else Canonical(s, id)
  {
    hide Digits;
    DigitsAreCanonical(if id < 0 then 0 - id else id);
    if id < 0 { assert IntText(id)[1..] == Digits(0 - id); }
  }

  datatype Parsed = Bad | Id(id: NumID)

  /** `boost::lexical_cast<NumID>`: an optional sign, then one or more digits, in range. */
  function ParseInt(s: Str): Parsed {
    var ds := if s != [] && (s[0] == MINUS || s[0] == PLUS) then s[1..] else s;
    if ds == [] || exists d | d in ds :: !IsDigit(d) then Bad
    else
      var v := if s[0] == MINUS then 0 - NatOf(ds) else NatOf(ds);
      if MIN_ID <= v <= MAX_ID then Id(v) else Bad
  }

  /** Every 64-bit integer survives printing and parsing. */
  lemma ParseIntText(id: NumID)
    ensures ParseInt(IntText(id)) == Id(id)
  {
    hide Digits, NatOf;
    var ds := Digits(if id < 0 then 0 - id else id);
    NatOfDigits(if id < 0 then 0 - id else id);
    assert ds[0] in ds;
    assert id < 0 ==> IntText(id)[1..] == ds;
  }

  function Zeros(n: nat): (ds: Str)
    ensures |ds| == n && forall d | d in ds :: d == 48
  {
    seq(n, _ => 48)
  }

  lemma {:induction false} NatOfZeros(zeros: nat, n: nat)
    ensures forall d | d in Zeros(zeros) + Digits(n) :: IsDigit(d)
    ensures NatOf(Zeros(zeros) + Digits(n)) == n
    decreases n
  {
    var ds := Zeros(zeros) + Digits(n);
    if n >= 10 {
      NatOfZeros(zeros, n / 10);
      assert ds[..|ds| - 1] == Zeros(zeros) + Digits(n / 10);
    } else {
      OnlyZeros(zeros);
      assert ds[..|ds| - 1] == Zeros(zeros);
    }
  }

  lemma {:induction false} OnlyZeros(zeros: nat)
    ensures NatOf(Zeros(zeros)) == 0
  {
    if zeros > 0 {
      OnlyZeros(zeros - 1);
      assert Zeros(zeros)[..zeros - 1] == Zeros(zeros - 1);
    }
  }

  lemma NatOfSnoc(init: Str, d: Byte)
    requires (forall x | x in init :: IsDigit(x)) && IsDigit(d)
    ensures forall x | x in init + [d] :: IsDigit(x)
    ensures NatOf(init + [d]) == 10 * NatOf(init) + (d as int - 48)
  {
    var ds := init + [d];
    assert forall x | x in ds :: x in init || x == d;
    assert ds[..|ds| - 1] == init && ds[|ds| - 1] == d;
  }

  lemma DigitsSnoc(init: Str, d: Byte)
    requires (forall x | x in init :: IsDigit(x)) && IsDigit(d)
    ensures forall x | x in init + [d] :: IsDigit(x)
    ensures Digits(NatOf(init + [d])) == if NatOf(init) == 0 then [d] else Digits(NatOf(init)) + [d]
    ensures NatOf(init + [d]) == 0 <==> NatOf(init) == 0 && d == 48
  {
    hide NatOf, Digits;
    NatOfSnoc(init, d);
    LastDigit(NatOf(init), d);
  }

  lemma LastDigit(n: nat, d: Byte)
    requires IsDigit(d)
    ensures Digits(10 * n + (d as int - 48)) == if n == 0 then [d] else Digits(n) + [d]
  {
    var m := 10 * n + (d as int - 48);
    assert m / 10 == n && m % 10 == d as int - 48;
  }

  /** Digits are leading zeros and the canonical digits of their value. */
  lemma {:induction false} DigitsOfNat(ds: Str) returns (zeros: nat)
    requires ds != [] && forall d | d in ds :: IsDigit(d)
    ensures ds == Zeros(zeros) + Digits(NatOf(ds))
    decreases |ds|
  {
    hide Digits, NatOf;
    var init, d := ds[..|ds| - 1], ds[|ds| - 1];
    assert ds == init + [d] && d in ds;
    DigitsSnoc(init, d);
    if init == [] {
      OnlyZeros(0);
      assert init == Zeros(0);
      zeros := 0;
    } else {
      zeros := DigitsOfNat(init);
      if NatOf(init) == 0 {
        ZeroDigit();
        assert Zeros(zeros) + [48] == Zeros(zeros + 1);
        zeros := zeros + 1;
      }
    }
  }

  lemma ZeroDigit()
    ensures Digits(0) == [48]
  {
  }

  /** A spelling of `id`: a sign that fits it, leading zeros, and its digits. */
  ghost predicate Spelling(s: Str, id: NumID, sign: Str, zeros: nat) {
    && s == sign + (Zeros(zeros) + Digits(if id < 0 then 0 - id else id))
    && if sign == [45] then id <= 0 else id >= 0 && (sign == [] || sign == [43])
  }

  lemma SpellingParses(s: Str, id: NumID, sign: Str, zeros: nat)
    requires Spelling(s, id, sign, zeros)
    ensures ParseInt(s) == Id(id)
  {
    hide Zeros, Digits, NatOf, IsDigit;
    var n := if id < 0 then 0 - id else id;
    var ds := Zeros(zeros) + Digits(n);
    NatOfZeros(zeros, n);
    assert s == sign + ds && s[|sign|..] == ds;
    assert IsDigit(ds[0]) by { assert ds[0] in ds; }
    NoSign(ds[0]);
  }

  lemma NoSign(d: Byte)
    ensures IsDigit(d) ==> d != MINUS && d != PLUS
  {
  }

  lemma ParsedIsSpelled(s: Str, id: NumID) returns (sign: Str, zeros: nat)
    requires ParseInt(s) == Id(id)
    ensures Spelling(s, id, sign, zeros)
  {
    hide Zeros, Digits, NatOf;
    sign := if s[0] == MINUS || s[0] == PLUS then s[..1] else [];
    zeros := DigitsOfNat(s[|sign|..]);
    assert s == sign + s[|sign|..];
  }

  /** The parser accepts exactly the spellings of 64-bit integers. */
  lemma ParseIntAccepts(s: Str, id: NumID)
    ensures ParseInt(s) == Id(id) <==> exists sign, zeros: nat :: Spelling(s, id, sign, zeros)
  {
    hide ParseInt, Spelling;
    if ParseInt(s) == Id(id) {
      var sign, zeros := ParsedIsSpelled(s, id);
    }
    if sign, zeros: nat :| Spelling(s, id, sign, zeros) {
      SpellingParses(s, id, sign, zeros);
    }
  }

  // ---- text lines ----

  function TextLine(kv: KVPair): Str {
    IntText(kv.key) + [TAB] + kv.value + [NEWLINE]
  }

  /** ... byte by byte: a tab (9) after the key, a newline (10) after the value. */
  lemma TextLineInBytes(kv: KVPair)
    ensures TextLine(kv) == IntText(kv.key) + [9] + kv.value + [10]
  {
  }

  function TextDump(kvs: seq<KVPair>): Str {
    if kvs == [] then [] else TextDump(kvs[..|kvs| - 1]) + TextLine(kvs[|kvs| - 1])
  }

  lemma TextDumpNone(kvs: seq<KVPair>)
    ensures TextDump(kvs[..0]) == []
  {
  }

  lemma TextDumpSnoc(kvs: seq<KVPair>, i: nat)
    requires i < |kvs|
    ensures TextDump(kvs[..i + 1]) == TextDump(kvs[..i]) + TextLine(kvs[i])
  {
    hide TextLine;
    assert kvs[..i + 1][..i] == kvs[..i];
  }

  /** `boost::split` on tabs, without compressing. */
  function Split(line: Str): (items: seq<Str>)
    ensures |items| >= 1 && items[0] == UpTo(line, TAB)
    decreases |line|
  {
    var p := UpTo(line, TAB);
    if |p| == |line| then [line] else [p] + Split(line[|p| + 1..])
  }

  /** The lines `getline` yields: the last one may lack its newline. */
  function Lines(data: seq<Byte>): (lines: seq<Str>)
    decreases |data|
  {
    if data == [] then []
    else
      var l := UpTo(data, NEWLINE);
      if |l| == |data| then [l] else [l] + Lines(data[|l| + 1..])
  }

  function Joined(items: seq<Str>, sep: Byte): Str
    requires items != []
  {
    if |items| == 1 then items[0] else items[0] + [sep] + Joined(items[1..], sep)
  }

  /** Splitting is at every tab (9), and joining with tabs undoes it. */
  lemma {:induction false} SplitMeans(line: Str)
    ensures Joined(Split(line), 9) == line && forall item | item in Split(line) :: 9 !in item
    decreases |line|
  {
    var p := UpTo(line, TAB);
    if |p| < |line| {
      SplitMeans(line[|p| + 1..]);
      assert line == p + [9] + line[|p| + 1..];
      assert Split(line)[1..] == Split(line[|p| + 1..]);
    }
  }

  function Terminated(lines: seq<Str>): Str {
    if lines == [] then [] else lines[0] + [10] + Terminated(lines[1..])
  }

  lemma TerminatedCons(line: Str, lines: seq<Str>)
    ensures Terminated([line] + lines) == line + [10] + Terminated(lines)
  {
    assert ([line] + lines)[1..] == lines;
  }

  /** What the lines of `data` rebuild: it, with a newline at its end. */
  function Ended(data: Str): Str {
    if data == [] || data[|data| - 1] == 10 then data else data + [10]
  }

  /** The lines are what newlines (10) end, the last of which may be missing. */
  lemma {:induction false} LinesMean(data: seq<Byte>)
    ensures forall line | line in Lines(data) :: 10 !in line
    ensures Terminated(Lines(data)) == Ended(data)
    decreases |data|
  {
    hide Lines, Terminated, UpTo;
    NothingTerminated();
    if data != [] {
      var l := UpTo(data, NEWLINE);
      LinesStep(data);
      if |l| == |data| {
        assert data[|data| - 1] in l;
        TerminatedCons(l, []);
        assert [l] + [] == [l];
      } else {
        var rest := data[|l| + 1..];
        LinesMean(rest);
        TerminatedCons(l, Lines(rest));
        EndedCons(l, rest);
        assert data == l + [10] + rest;
      }
    }
  }

  lemma NothingTerminated()
    ensures Lines([]) == [] && Terminated([]) == []
  {
  }

  lemma EndedCons(l: Str, rest: Str)
    ensures Ended(l + [10] + rest) == l + [10] + Ended(rest)
  {
    var data := l + [10] + rest;
    if rest == [] {
      assert data[|data| - 1] == 10;
    } else {
      assert data[|data| - 1] == rest[|rest| - 1];
    }
  }

  /** A line the text reader accepts. */
  predicate GoodLine(line: Str) {
    ParseInt(Split(line)[0]).Id?
  }

  /** An accepted line with a value: the format's domain. */
  predicate Complete(line: Str) {
    GoodLine(line) && |Split(line)| >= 2
  }

  function LineRecord(line: Str): KVPair
    requires Complete(line)
  {
    KVPair(ParseInt(Split(line)[0]).id, Split(line)[1])
  }

  /** The records of lines the text reader accepts. */
  function LineRecords(lines: seq<Str>): (kvs: seq<KVPair>)
    requires forall i | 0 <= i < |lines| :: Complete(lines[i])
    ensures |kvs| == |lines|
    ensures forall i | 0 <= i < |lines| :: kvs[i] == LineRecord(lines[i])
  {
    seq(|lines|, i requires 0 <= i < |lines| => LineRecord(lines[i]))
  }

  lemma LinesStep(data: seq<Byte>)
    requires data != []
    ensures var l := UpTo(data, NEWLINE);
            Lines(data) == if |l| == |data| then [l] else [l] + Lines(data[|l| + 1..])
  {
    hide UpTo;
  }

  /** If `lines` from `read` on are those of the data from `pos` on, the next one is. */
  lemma NextLine(data: seq<Byte>, pos: nat, lines: seq<Str>, read: nat)
    requires pos < |data| && read <= |lines| && lines[read..] == Lines(data[pos..])
    ensures var l := UpTo(data[pos..], NEWLINE);
            && read < |lines| && lines[read] == l
            && lines[read + 1..] == if |l| == |data| - pos then [] else Lines(data[pos + |l| + 1..])
  {
    hide UpTo, Lines;
    var l := UpTo(data[pos..], NEWLINE);
    LinesStep(data[pos..]);
    if |l| < |data| - pos {
      assert data[pos..][|l| + 1..] == data[pos + |l| + 1..];
    }
    assert lines[read] == lines[read..][0] && lines[read + 1..] == lines[read..][1..];
  }

  /** `after` is `before` overridden by the first `n` lines. */
  ghost predicate Restored(before: Db, after: Db, lines: seq<Str>, n: nat) {
    && n <= |lines| && (forall i | 0 <= i < n :: Complete(lines[i]))
    && after == Put(before, LineRecords(lines[..n]))
  }

  /** `after` is `before` overridden by the full batches before line `read`. */
  ghost predicate RestoredBatches(before: Db, after: Db, lines: seq<Str>, read: nat, batchSize: nat, batches: nat) {
    var n: int := batches * batchSize;
    0 <= n <= read < n + batchSize && Restored(before, after, lines, n)
  }

  /** `n` lines make `batches` full batches. */
  ghost predicate FullBatches(n: nat, batches: nat, batchSize: nat) {
    n == batches * batchSize
  }

  lemma NextBatch(n: nat, batches: nat, batchSize: nat)
    ensures FullBatches(0, 0, batchSize)
    ensures FullBatches(n, batches, batchSize) ==> FullBatches(n + batchSize, batches + 1, batchSize)
  {
  }

  lemma StopsInBatch(before: Db, after: Db, lines: seq<Str>, n: nat, read: nat, batchSize: nat, batches: nat)
    requires FullBatches(n, batches, batchSize) && n <= read < n + batchSize && Restored(before, after, lines, n)
    ensures RestoredBatches(before, after, lines, read, batchSize, batches)
  {
    hide Restored;
  }

  /** `kvs` are the records of the lines from `m` up to `n`. */
  ghost predicate Queued(lines: seq<Str>, m: nat, n: nat, kvs: seq<KVPair>) {
    && m <= n <= |lines| && (forall i | m <= i < n :: Complete(lines[i]))
    && |kvs| == n - m && forall i | 0 <= i < n - m :: kvs[i] == LineRecord(lines[m + i])
  }

  lemma NothingRestored(db: Db, lines: seq<Str>)
    ensures Restored(db, db, lines, 0) && Queued(lines, 0, 0, [])
  {
  }

  lemma QueueLine(lines: seq<Str>, m: nat, n: nat, kvs: seq<KVPair>)
    requires Queued(lines, m, n, kvs) && n < |lines| && Complete(lines[n])
    ensures var items := Split(lines[n]);
            && |items| >= 2 && ParseInt(items[0]).Id?
            && Queued(lines, m, n + 1, kvs + [KVPair(ParseInt(items[0]).id, items[1])])
    ensures Queued(lines, n + 1, n + 1, [])
  {
    hide Split, ParseInt;
  }

  lemma FlushLines(before: Db, db: Db, lines: seq<Str>, m: nat, n: nat, kvs: seq<KVPair>)
    requires Restored(before, db, lines, m) && Queued(lines, m, n, kvs)
    ensures Restored(before, Put(db, kvs), lines, n)
  {
    hide Complete, LineRecord, Put;
    forall i | 0 <= i < n ensures Complete(lines[i]) {}
    assert LineRecords(lines[..n]) == LineRecords(lines[..m]) + kvs;
    PutConcat(before, LineRecords(lines[..m]), kvs);
  }

  lemma NoLines(data: seq<Byte>)
    ensures Lines(data[|data|..]) == []
  {
  }

  /** What a text dump keeps of a value. */
  function CutTab(v: Str): Str {
    UpTo(v, TAB)
  }

  lemma CutTabIsIdentity(v: Str)
    ensures CutTab(v) == v <==> TAB !in v
  {
  }

  /** A dumped line parses to its record, the value cut at its first tab. */
  lemma LineRoundTrip(kv: KVPair)
    ensures var line := IntText(kv.key) + [TAB] + kv.value;
            Complete(line) && LineRecord(line) == KVPair(kv.key, CutTab(kv.value))
  {
    var key, line := IntText(kv.key), IntText(kv.key) + [TAB] + kv.value;
    assert line == key + ([TAB] + kv.value);
    UpToConcat(key, [TAB] + kv.value, TAB);
    assert UpTo([TAB] + kv.value, TAB) == [] && key + [] == key;
    assert line[|key| + 1..] == kv.value;
    ParseIntText(kv.key);
  }

  lemma TwoItems(line: Str, key: Str, value: Str, others: seq<Str>)
    requires Split(line) == [key, value] + others && ParseInt(key).Id?
    ensures Complete(line) && LineRecord(line) == KVPair(ParseInt(key).id, value)
  {
    hide ParseInt, Split;
  }

  /** A line's value is what lies between its first tab (9) and the next one, if any. */
  lemma LineValue(key: Str, value: Str, more: Str)
    requires 9 !in key && 9 !in value && ParseInt(key).Id?
    ensures var line := key + [9] + value;
            Complete(line) && LineRecord(line) == KVPair(ParseInt(key).id, value)
    ensures var line := key + [9] + value + [9] + more;
            Complete(line) && LineRecord(line) == KVPair(ParseInt(key).id, value)
  {
    hide ParseInt, Split, Complete, LineRecord;
    var none: seq<Str> := [];
    NextItem(key, value);
    NoNextItem(value);
    assert [key] + [value] == [key, value] + none;
    TwoItems(key + [9] + value, key, value, none);
    NextItem(key, value + [9] + more);
    NextItem(value, more);
    assert key + [9] + value + [9] + more == key + [9] + (value + [9] + more);
    assert [key] + ([value] + Split(more)) == [key, value] + Split(more);
    TwoItems(key + [9] + value + [9] + more, key, value, Split(more));
  }

  lemma NextItem(item: Str, rest: Str)
    requires 9 !in item
    ensures Split(item + [9] + rest) == [item] + Split(rest)
  {
    var line := item + [9] + rest;
    assert line == item + ([9] + rest);
    UpToConcat(item, [9] + rest, TAB);
    assert UpTo([9] + rest, TAB) == [] && item + [] == item;
    assert line[|item| + 1..] == rest;
  }

  lemma NoNextItem(item: Str)
    requires 9 !in item
    ensures Split(item) == [item]
  {
    UpToConcat(item, [], TAB);
    assert item + [] == item;
  }

  lemma {:induction false} LinesConcat(line: Str, rest: seq<Byte>)
    requires NEWLINE !in line
    ensures Lines(line + [NEWLINE] + rest) == [line] + Lines(rest)
  {
    var data := line + [NEWLINE] + rest;
    assert data == line + ([NEWLINE] + rest);
    UpToConcat(line, [NEWLINE] + rest, NEWLINE);
    assert UpTo([NEWLINE] + rest, NEWLINE) == [] && line + [] == line;
    assert data[|line| + 1..] == rest;
  }

  /** The lines of a text dump are the printed records, if no value holds a newline. */
  lemma {:induction false} DumpLines(kvs: seq<KVPair>, rest: seq<Byte>)
    requires forall kv | kv in kvs :: NEWLINE !in kv.value
    ensures |Lines(TextDump(kvs) + rest)| == |kvs| + |Lines(rest)|
    ensures forall i | 0 <= i < |kvs| ::
              Lines(TextDump(kvs) + rest)[i] == IntText(kvs[i].key) + [TAB] + kvs[i].value
    ensures Lines(TextDump(kvs) + rest)[|kvs|..] == Lines(rest)
    decreases |kvs|
  {
    hide Lines, IntText;
    if kvs == [] {
      assert TextDump(kvs) + rest == rest;
    } else {
      var init, kv := kvs[..|kvs| - 1], kvs[|kvs| - 1];
      var line := IntText(kv.key) + [TAB] + kv.value;
      LinesConcat(line, rest);
      DumpLines(init, TextLine(kv) + rest);
      assert TextDump(kvs) + rest == TextDump(init) + (TextLine(kv) + rest);
      assert TextLine(kv) + rest == line + [NEWLINE] + rest;
      assert Lines(TextDump(kvs) + rest)[|init|..] == [line] + Lines(rest);
    }
  }
}
