/** Segment files as bytes: recovering a torn tail, and the offsets that appends, scans and
    the index rebuild must agree on. */
module Segments {
  import opened Common
  import opened Log

  newtype byte = x: int | 0 <= x < 256

  const NL: byte := 10
  const CR: byte := 13

  /** The largest line a scanner reads, newline included. */
  const MAX_LINE := 16 * 1024 * 1024

  /** The line codec, newline excluded. */
  datatype Codec = Codec(enc: Entry -> seq<byte>, dec: seq<byte> -> Option<Entry>)

  /** A line of JSON: not empty, no raw newline, no trailing carriage return, and it decodes
      to what was encoded. */
  predicate Codable(c: Codec, e: Entry) {
    var b := c.enc(e);
    b != [] && NL !in b && b[|b| - 1] != CR && c.dec(b) == Some(e)
  }

  predicate AllCodable(c: Codec, es: seq<Entry>) {
    forall i | 0 <= i < |es| :: Codable(c, es[i]) && |c.enc(es[i])| < MAX_LINE
  }

  function LineOf(c: Codec, e: Entry): seq<byte> {
    c.enc(e) + [NL]
  }

  /** The bytes of a cleanly written segment. */
  function Flat(c: Codec, es: seq<Entry>): seq<byte> {
    if es == [] then [] else Flat(c, es[..|es| - 1]) + LineOf(c, es[|es| - 1])
  }

  /** Where the i-th entry starts. */
  function Start(c: Codec, es: seq<Entry>, i: nat): nat
    requires i <= |es|
  {
    |Flat(c, es[..i])|
  }

  /** The starts of the first n entries. */
  function Starts(c: Codec, es: seq<Entry>, n: nat): seq<nat>
    requires n <= |es|
  {
    if n == 0 then [] else Starts(c, es, n - 1) + [Start(c, es, n - 1)]
  }

  /** The entries from the i-th on, each with its start. */
  function WithStarts(c: Codec, es: seq<Entry>, i: nat): seq<(nat, Entry)>
    requires i <= |es|
    decreases |es| - i
  {
    if i == |es| then [] else [(Start(c, es, i), es[i])] + WithStarts(c, es, i + 1)
  }

  lemma FlatSnoc(c: Codec, es: seq<Entry>, i: nat)
    requires i < |es|
    ensures Flat(c, es[..i + 1]) == Flat(c, es[..i]) + LineOf(c, es[i])
  {
    assert es[..i + 1][..i] == es[..i];
  }

  lemma {:induction false} FlatPrefix(c: Codec, es: seq<Entry>, i: nat)
    requires i <= |es|
    ensures Flat(c, es[..i]) <= Flat(c, es)
  {
    if i == |es| {
      TakeAll(es);
    } else {
      FlatPrefix(c, es[..|es| - 1], i);
      assert es[..|es| - 1][..i] == es[..i];
    }
  }

  /** The byte offsets are the running lengths the collection model uses. */
  lemma {:induction false} FlatSize(c: Codec, len: LineLen, es: seq<Entry>)
    requires forall e: Entry :: len(e) == |c.enc(e)| + 1
    ensures |Flat(c, es)| == Bytes(len, es)
  {
    if es != [] { FlatSize(c, len, es[..|es| - 1]); }
  }

  // ---- Torn tails ---------------------------------------------------------------------------

  predicate EndsLine(s: seq<byte>) {
    s == [] || s[|s| - 1] == NL
  }

  /** recoverPartialLine: the file up to its last newline, found by reading ever larger
      tails backwards in steps of 512 bytes. */
  method RecoverPartialLine(file: seq<byte>) returns (valid: nat)
    ensures valid <= |file| && EndsLine(file[..valid]) && NL !in file[valid..]
  {
    var size := |file|;
    if size == 0 || file[size - 1] == NL {
      return size;
    }
    var offset := if size < 512 then 0 else size - 512;
    while true
      invariant 0 <= offset <= size
      invariant forall k | offset + 512 <= k < size :: file[k] != NL
      decreases offset
    {
      var found, at := LastNewline(file[offset..]);
      if found {
        valid := offset + at + 1;
        assert forall k | valid <= k < size :: file[k] == file[offset..][k - offset];
        return;
      }
      assert forall k | offset <= k < size :: file[k] == file[offset..][k - offset];
      if offset == 0 {
        return 0;
      }
      offset := if offset < 512 then 0 else offset - 512;
    }
  }

  method LastNewline(b: seq<byte>) returns (found: bool, at: nat)
    ensures found ==> at < |b| && b[at] == NL && forall k | at < k < |b| :: b[k] != NL
    ensures !found ==> NL !in b
  {
    var i := |b|;
    while i > 0
      invariant 0 <= i <= |b| && forall k | i <= k < |b| :: b[k] != NL
    {
      i := i - 1;
      if b[i] == NL {
        return true, i;
      }
    }
    found, at := false, 0;
  }

  lemma FlatEndsLine(c: Codec, es: seq<Entry>)
    ensures EndsLine(Flat(c, es))
  {
  }

  /** Whatever follows the last complete line of a segment is exactly what recovery drops. */
  lemma RecoveryIsExact(c: Codec, es: seq<Entry>, torn: seq<byte>, valid: nat)
    requires NL !in torn
    requires var file := Flat(c, es) + torn;
             valid <= |file| && EndsLine(file[..valid]) && NL !in file[valid..]
    ensures valid == |Flat(c, es)| && (Flat(c, es) + torn)[..valid] == Flat(c, es)
  {
    hide Flat;
    var whole := Flat(c, es);
    var file := whole + torn;
    FlatEndsLine(c, es);
    assert forall k | 0 <= k < |torn| :: file[|whole| + k] == torn[k];
    assert forall k | valid <= k < |file| :: file[k] == file[valid..][k - valid];
    assert forall k | 0 <= k < valid :: file[k] == file[..valid][k];
    assert whole != [] ==> file[|whole| - 1] == NL;
    assert |whole| <= valid;
    assert forall k | |whole| <= k < |file| :: file[k] == torn[k - |whole|];
  }

  // ---- Scanning ----------------------------------------------------------------------------

  /** The first newline at or after `pos`, or the end of the file. */
  function NextNewline(b: seq<byte>, pos: nat): (n: nat)
    requires pos <= |b|
    ensures pos <= n <= |b| && (forall k | pos <= k < n :: b[k] != NL) && (n < |b| ==> b[n] == NL)
    decreases |b| - pos
  {
    if pos == |b| || b[pos] == NL then pos else NextNewline(b, pos + 1)
  }

  function DropCR(b: seq<byte>): seq<byte> {
    if b != [] && b[|b| - 1] == CR then b[..|b| - 1] else b
  }

  /** One step of the line scanner: a token and the position after it, or an oversized line. */
  datatype Token = Token(line: seq<byte>, next: nat) | TooLong

  function ScanLine(b: seq<byte>, pos: nat): (t: Token)
    requires pos < |b|
    ensures t.Token? ==> pos < t.next <= |b|
  {
    var n := NextNewline(b, pos);
    if n - pos + 1 > MAX_LINE then TooLong
    else Token(DropCR(b[pos..n]), if n < |b| then n + 1 else n)
  }

  /** At the start of an entry the scanner reads that entry and stops at the next one. */
  lemma ScanEntry(c: Codec, es: seq<Entry>, i: nat)
    requires AllCodable(c, es) && i < |es|
    ensures Start(c, es, i) < |Flat(c, es)| && Start(c, es, i + 1) == Start(c, es, i) + |c.enc(es[i])| + 1
    ensures ScanLine(Flat(c, es), Start(c, es, i)) == Token(c.enc(es[i]), Start(c, es, i + 1))
  {
    hide Flat, NextNewline;
    FlatSnoc(c, es, i);
    FlatPrefix(c, es, i + 1);
    NewlineAt(Flat(c, es), Flat(c, es[..i]), c.enc(es[i]));
  }

  lemma NewlineAt(b: seq<byte>, before: seq<byte>, line: seq<byte>)
    requires before + (line + [NL]) <= b && NL !in line
    ensures NextNewline(b, |before|) == |before| + |line| && b[|before|..|before| + |line|] == line
  {
    var whole := before + (line + [NL]);
    assert forall k | 0 <= k < |line| :: b[|before| + k] == whole[|before| + k] == line[k];
    assert b[|before| + |line|] == whole[|before| + |line|] == NL;
    assert forall k | |before| <= k < |before| + |line| :: b[k] == line[k - |before|];
  }

  /** What a scan of any file yields from a position on: the decoded lines with the offsets
      counted line by line, blank lines skipped; nothing if a line is oversized or corrupt. */
  function Scanned(c: Codec, b: seq<byte>, pos: nat, off: nat): Option<seq<(nat, Entry)>>
    requires pos <= |b|
    decreases |b| - pos
  {
    if pos == |b| then Some([]) else
    var t := ScanLine(b, pos);
    if t.TooLong? then None else
    var rest := Scanned(c, b, t.next, off + |t.line| + 1);
    if t.line == [] then rest
    else if c.dec(t.line).None? then None
    else Before([(off, c.dec(t.line).value)], rest)
  }

  function Before(done: seq<(nat, Entry)>, rest: Option<seq<(nat, Entry)>>): Option<seq<(nat, Entry)>> {
    if rest.None? then None else Some(done + rest.value)
  }

  lemma BeforeStep(done: seq<(nat, Entry)>, x: (nat, Entry), rest: Option<seq<(nat, Entry)>>)
    ensures Before(done, Before([x], rest)) == Before(done + [x], rest)
  {
    if rest.Some? { assert done + ([x] + rest.value) == done + [x] + rest.value; }
  }

  /** ScanFrom over any file. */
  method ScanFrom(c: Codec, b: seq<byte>) returns (r: Option<seq<(nat, Entry)>>)
    ensures r == Scanned(c, b, 0, 0)
  {
    hide ScanLine;
    var out: seq<(nat, Entry)> := [];
    var pos: nat, off: nat := 0, 0;
    assert Scanned(c, b, 0, 0).Some? ==> [] + Scanned(c, b, 0, 0).value == Scanned(c, b, 0, 0).value;
    while pos < |b|
      invariant pos <= |b| && Scanned(c, b, 0, 0) == Before(out, Scanned(c, b, pos, off))
      decreases |b| - pos
    {
      var t := ScanLine(b, pos);
      if t.TooLong? {
        return None;
      }
      var start := off;
      off := off + |t.line| + 1;
      pos := t.next;
      if |t.line| > 0 {
        var e := c.dec(t.line);
        if e.None? {
          return None;
        }
        BeforeStep(out, (start, e.value), Scanned(c, b, pos, off));
        out := out + [(start, e.value)];
      }
    }
    assert out + [] == out;
    r := Some(out);
  }

  /** A scan of a cleanly written segment yields its entries at the starts they were
      appended at. */
  lemma {:induction false} ScannedFlat(c: Codec, es: seq<Entry>, i: nat)
    requires AllCodable(c, es) && i <= |es|
    ensures Start(c, es, i) <= |Flat(c, es)|
    ensures Scanned(c, Flat(c, es), Start(c, es, i), Start(c, es, i)) == Some(WithStarts(c, es, i))
    decreases |es| - i
  {
    hide Flat, Start, ScanLine;
    if i == |es| {
      StartEnds(c, es);
    } else {
      ScanEntry(c, es, i);
      ScannedFlat(c, es, i + 1);
    }
  }

  lemma StartEnds(c: Codec, es: seq<Entry>)
    ensures Start(c, es, 0) == 0 && Start(c, es, |es|) == |Flat(c, es)|
  {
    TakeAll(es);
  }

  // ---- Offsets by chunked reading --------------------------------------------------------

  /** The starts of the lines completed among the first n bytes. */
  function LineStarts(b: seq<byte>, n: nat): seq<nat>
    requires n <= |b|
  {
    if n == 0 then [] else
    LineStarts(b, n - 1) + if b[n - 1] == NL then [LineStart(b, n - 1)] else []
  }

  /** Where the line that holds position n starts. */
  function LineStart(b: seq<byte>, n: nat): nat
    requires n <= |b|
  {
    if n == 0 then 0 else if b[n - 1] == NL then n else LineStart(b, n - 1)
  }

  function Sum(cuts: seq<nat>, n: nat): nat
    requires n <= |cuts|
  {
    if n == 0 then 0 else Sum(cuts, n - 1) + cuts[n - 1]
  }

  lemma {:induction false} SumRises(cuts: seq<nat>, i: nat, j: nat)
    requires i <= j <= |cuts|
    ensures Sum(cuts, i) <= Sum(cuts, j)
  {
    if i < j { SumRises(cuts, i, j - 1); }
  }

  /** scanOffsets: `cuts` are the sizes of the reads, in whatever way they fall. */
  method ScanOffsets(b: seq<byte>, cuts: seq<nat>) returns (offsets: seq<nat>)
    requires Sum(cuts, |cuts|) == |b|
    ensures offsets == LineStarts(b, |b|)
  {
    offsets := [];
    var pos, lineStart, inLine := 0, 0, false;
    for k := 0 to |cuts|
      invariant pos == Sum(cuts, k) <= |b|
      invariant offsets == LineStarts(b, pos) &&
          (inLine <==> LineStart(b, pos) < pos) && (inLine ==> lineStart == LineStart(b, pos))
    {
      var n := cuts[k];
      SumRises(cuts, k + 1, |cuts|);
      for i := 0 to n
        invariant offsets == LineStarts(b, pos + i)
        invariant (inLine <==> LineStart(b, pos + i) < pos + i) && (inLine ==> lineStart == LineStart(b, pos + i))
      {
        LineStartBound(b, pos + i);
        if !inLine {
          lineStart := pos + i;
          inLine := true;
        }
        if b[pos + i] == NL {
          offsets := offsets + [lineStart];
          inLine := false;
        }
      }
      pos := pos + n;
    }
  }

  lemma {:induction false} LineStartBound(b: seq<byte>, n: nat)
    requires n <= |b|
    ensures LineStart(b, n) <= n
  {
    if n > 0 { LineStartBound(b, n - 1); }
  }

  lemma {:induction false} WithinLine(b: seq<byte>, from: nat, n: nat)
    requires from <= n <= |b| && LineStart(b, from) == from && forall k | from <= k < n :: b[k] != NL
    ensures LineStart(b, n) == from && LineStarts(b, n) == LineStarts(b, from)
  {
    if from < n { WithinLine(b, from, n - 1); }
  }

  /** The starts found by reading bytes are the starts of the entries. */
  lemma {:induction false} StartsAgree(c: Codec, es: seq<Entry>, i: nat)
    requires AllCodable(c, es) && i <= |es|
    ensures Start(c, es, i) <= |Flat(c, es)|
    ensures LineStart(Flat(c, es), Start(c, es, i)) == Start(c, es, i)
    ensures LineStarts(Flat(c, es), Start(c, es, i)) == Starts(c, es, i)
    decreases i
  {
    hide Flat;
    if i == 0 {
      StartEnds(c, es);
    } else {
      var b, s := Flat(c, es), Start(c, es, i - 1);
      StartsAgree(c, es, i - 1);
      FlatSnoc(c, es, i - 1);
      FlatPrefix(c, es, i);
      NewlineAt(b, Flat(c, es[..i - 1]), c.enc(es[i - 1]));
      WithinLine(b, s, s + |c.enc(es[i - 1])|);
    }
  }

  // ---- The segment -------------------------------------------------------------------------

  class SegmentFile {
    const codec: Codec
    var file: seq<byte>
    var size: nat
    var sealed: bool
    ghost var entries: seq<Entry>

    ghost predicate Valid() reads this {
      file == Flat(codec, entries) && size == |file| && AllCodable(codec, entries)
    }

    /** openActiveSegment on a file whose last append was cut short anywhere. */
    constructor Open(codec: Codec, data: seq<byte>, ghost es: seq<Entry>, ghost torn: seq<byte>)
      requires data == Flat(codec, es) + torn && NL !in torn && AllCodable(codec, es)
      ensures Valid() && entries == es && !sealed && this.codec == codec
    {
      var valid := RecoverPartialLine(data);
      this.codec, this.sealed := codec, false;
      file, size := data[..valid], valid;
      entries := es;
      RecoveryIsExact(codec, es, torn, valid);
    }

    /** Append: refused on a sealed segment and for a line no scan could read back. */
    method Append(e: Entry) returns (offset: Option<nat>)
      requires Valid() && Codable(codec, e)
      modifies this
      ensures Valid() && sealed == old(sealed)
      ensures offset.None? <==> sealed || |LineOf(codec, e)| > MAX_LINE
      ensures offset.None? ==> file == old(file) && entries == old(entries)
      ensures offset.Some? ==> entries == old(entries) + [e] && offset.value == Start(codec, entries, |entries| - 1)
    {
      if sealed {
        return None;
      }
      var b := LineOf(codec, e);
      if |b| > MAX_LINE {
        return None;
      }
      offset := Some(size);
      assert (entries + [e])[..|entries|] == entries;
      file, size := file + b, size + |b|;
      entries := entries + [e];
    }

    /** ReadAt: at the offset Append returned for an entry, that entry. */
    method ReadAt(offset: nat) returns (r: Option<Entry>)
      requires Valid()
      ensures forall i | 0 <= i < |entries| && Start(codec, entries, i) == offset :: r == Some(entries[i])
      ensures offset >= |file| ==> r.None?
    {
      hide Flat, Start, ScanLine;
      forall i | 0 <= i < |entries| ensures Start(codec, entries, i) < |file| {
        ScanEntry(codec, entries, i);
      }
      if offset >= |file| {
        return None;
      }
      var t := ScanLine(file, offset);
      r := if t.TooLong? then None else codec.dec(t.line);
      forall i | 0 <= i < |entries| && Start(codec, entries, i) == offset ensures r == Some(entries[i]) {
        ScanEntry(codec, entries, i);
      }
    }

    /** ScanFrom and ScanAll: every entry in order, with the offset Append returned for it. */
    method ScanAll() returns (r: Option<seq<(nat, Entry)>>)
      requires Valid()
      ensures r == Some(WithStarts(codec, entries, 0))
    {
      hide Flat;
      r := ScanFrom(codec, file);
      ScannedFlat(codec, entries, 0);
      StartEnds(codec, entries);
    }

    /** The offsets the index rebuild reads back pair up with the scanned entries. */
    method Offsets(cuts: seq<nat>) returns (offsets: seq<nat>)
      requires Valid() && Sum(cuts, |cuts|) == |file|
      ensures offsets == Starts(codec, entries, |entries|)
    {
      hide Flat, Start, LineStarts;
      offsets := ScanOffsets(file, cuts);
      StartsAgree(codec, entries, |entries|);
      StartEnds(codec, entries);
    }

    /** Seal: nothing more is appended. */
    method Seal()
      requires Valid()
      modifies `sealed
      ensures Valid() && sealed
    {
      sealed := true;
    }
  }

  /** How a pass writes a temp segment: every entry appended to a new file, which is then sealed.
      It fails on the first line no scan could read back. */
  method WriteSealed(codec: Codec, es: seq<Entry>) returns (s: SegmentFile, ok: bool)
    requires AllCodable(codec, es)
    ensures fresh(s) && s.Valid() && s.codec == codec
    ensures ok <==> forall i | 0 <= i < |es| :: |LineOf(codec, es[i])| <= MAX_LINE
    ensures ok ==> s.sealed && s.entries == es && s.file == Flat(codec, es)
  {
    hide Flat, LineOf;
    NoBytes(codec);
    s := new SegmentFile.Open(codec, [], [], []);
    for i := 0 to |es|
      invariant fresh(s) && s.Valid() && s.codec == codec && !s.sealed && s.entries == es[..i]
      invariant forall j | 0 <= j < i :: |LineOf(codec, es[j])| <= MAX_LINE
    {
      assert Codable(codec, es[i]);
      var offset := s.Append(es[i]);
      if offset.None? {
        return s, false;
      }
      assert es[..i + 1] == es[..i] + [es[i]];
    }
    assert es[..|es|] == es;
    s.Seal();
    ok := true;
  }

  lemma NoBytes(codec: Codec)
    ensures Flat(codec, []) == [] && AllCodable(codec, [])
  {
  }
}
