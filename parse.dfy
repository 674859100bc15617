/**
 * `parseCNAMEsFile` of src/util/cnames.js: locate the `var cnames_active = {`
 * line and the closing comment with its `}`, then read every line between
 * them as one entry, normalising its key, target and noCF tag.
 */
module Parse {
  import opened Wrappers
  import opened Text
  import opened JsObjects
  import opened Entries
  import opened Grammar

  /** The entries read, and the 1-based numbers of the lines that did not parse (the logged warnings). */
  datatype Parsed = Parsed(cnames: Registry, warnings: seq<nat>)

  /** `lines.findIndex(…)` for the declaration line, searching from `from`; -1 when absent. */
  function FindVarLine(lines: seq<string>, from: nat): (r: int)
    requires from <= |lines|
    ensures r == -1 <==> forall i :: from <= i < |lines| ==> !IsVarLine(lines[i])
    ensures r != -1 ==> from <= r < |lines| && IsVarLine(lines[r])
    ensures r != -1 ==> forall i :: from <= i < r ==> !IsVarLine(lines[i])
    decreases |lines| - from
  {
    if from == |lines| then -1
    else if IsVarLine(lines[from]) then from
    else FindVarLine(lines, from + 1)
  }

  /** The text from line `idx` to the end, as the closing test sees it. */
  function From(lines: seq<string>, idx: nat): string
    requires idx <= |lines|
  {
    Join(lines[idx..], "\n")
  }

  /** The first line at or after `from` where the closing comment and brace begin; -1 when absent. */
  function FindClosingLine(lines: seq<string>, from: nat): (r: int)
    requires from <= |lines|
    ensures r == -1 <==> forall i :: from <= i < |lines| ==> !IsClosing(From(lines, i))
    ensures r != -1 ==> from <= r < |lines| && IsClosing(From(lines, r))
    ensures r != -1 ==> forall i :: from <= i < r ==> !IsClosing(From(lines, i))
    decreases |lines| - from
  {
    if from == |lines| then -1
    else if IsClosing(From(lines, from)) then from
    else FindClosingLine(lines, from + 1)
  }

  /** One line of the object: the normalised key and its `{ target, noCF }`, or `None` when the entry pattern fails. */
  function ParseLine(line: string): Option<(string, Entry)> {
    match MatchEntry(line)
    case None => None
    case Some(f) =>
      var key := NormaliseKey(f.key);
      var target := NormaliseTarget(f.value);
      Some((key, Record(target, NoCF(key, target, RenderedMarker(f.marker)))))
  }

  /** A reader of one line: the key and record it yields, or `None` when the line is warned about. */
  type LineReader = string -> Option<(string, Entry)>

  /** The dictionary that reading lines `lo` up to `hi` builds, without the key order. */
  function ReadValues(read: LineReader, lines: seq<string>, lo: nat, hi: nat): map<string, Entry>
    requires lo <= hi <= |lines|
    decreases hi
  {
    if hi == lo then map[]
    else
      var m := ReadValues(read, lines, lo, hi - 1);
      match read(lines[hi - 1])
      case None => m
      case Some((key, entry)) => m[key := entry]
  }

  /** Reading lines `lo` up to `hi` (exclusive) in order into a fresh object. */
  function ReadLines(read: LineReader, lines: seq<string>, lo: nat, hi: nat): (p: Parsed)
    requires lo <= hi <= |lines|
    ensures p.cnames.Valid() && p.cnames.values == ReadValues(read, lines, lo, hi)
    decreases hi
  {
    if hi == lo then Parsed(Empty(), [])
    else
      var p := ReadLines(read, lines, lo, hi - 1);
      match read(lines[hi - 1])
      case None => Parsed(p.cnames, p.warnings + [hi])
      case Some((key, entry)) => Parsed(p.cnames.Set(key, entry), p.warnings)
  }

  lemma ReadNext(read: LineReader, lines: seq<string>, lo: nat, hi: nat, line: Option<(string, Entry)>, p: Parsed)
    requires lo <= hi < |lines| && line == read(lines[hi]) && p == ReadLines(read, lines, lo, hi)
    ensures p.cnames.Valid()
    ensures ReadLines(read, lines, lo, hi + 1) ==
        if line.None? then Parsed(p.cnames, p.warnings + [hi + 1])
        else Parsed(p.cnames.Set(line.value.0, line.value.1), p.warnings)
  {
  }

  /**
   * The whole parse with `read` as the line handler: `None` when either the
   * declaration or the closing is missing.
   */
  function ParseWith(read: LineReader, content: string): Option<Parsed> {
    var lines := Split(content, '\n');
    var v := FindVarLine(lines, 0);
    if v == -1 then None
    else
      var c := FindClosingLine(lines, v + 1);
      if c == -1 then None
      else Some(ReadLines(read, lines, v + 1, c))
  }

  /** The parse of `parseCNAMEsFile`, whose line handler is `ParseLine`. */
  function Parse(content: string): Option<Parsed> {
    ParseWith(ParseLine, content)
  }

  /** The entries of `lines` run from `lo` up to the closing at `c`. */
  predicate Located(lines: seq<string>, lo: nat, c: nat) {
    0 < lo <= c <= |lines| && FindVarLine(lines, 0) == lo - 1 && FindClosingLine(lines, lo) == c
  }

  /** The parse once the declaration and the closing have been located. */
  lemma ParseAt(read: LineReader, content: string, lines: seq<string>, lo: nat, c: nat)
    requires lines == Split(content, '\n') && Located(lines, lo, c)
    ensures ParseWith(read, content) == Some(ReadLines(read, lines, lo, c))
  {
  }

  /** The same, for `parseCNAMEsFile`'s own line handler. */
  lemma ParsedAt(content: string, lines: seq<string>, lo: nat, c: nat)
    requires lines == Split(content, '\n') && Located(lines, lo, c)
    ensures Parse(content).Some? && Parse(content).value == ReadLines(ParseLine, lines, lo, c)
  {
    ParseAt(ParseLine, content, lines, lo, c);
  }

  /** `parseCNAMEsFile` */
  method ParseCNAMEsFile(content: string) returns (r: Option<Parsed>)
    ensures r == Parse(content)
  {
    var lines := Split(content, '\n');
    var varLine := FindVarLine(lines, 0);
    if varLine == -1 {
      return None;
    }
    var closingLine := FindClosingLine(lines, varLine + 1);
    if closingLine == -1 {
      return None;
    }
    var p := ReadRange(ParseLine, lines, varLine + 1, closingLine);
    ParseAt(ParseLine, content, lines, varLine + 1, closingLine);
    return Some(p);
  }

  /** The loop of `parseCNAMEsFile` over the lines between the declaration and the closing. */
  method ReadRange(read: LineReader, lines: seq<string>, lo: nat, hi: nat) returns (p: Parsed)
    requires lo <= hi <= |lines|
    ensures p == ReadLines(read, lines, lo, hi)
  {
    var cnames: Registry := Empty();
    var warnings: seq<nat> := [];
    var i := lo;
    while i < hi
      invariant lo <= i <= hi
      invariant Parsed(cnames, warnings) == ReadLines(read, lines, lo, i)
    {
      var line := read(lines[i]);
      ReadNext(read, lines, lo, i, line, Parsed(cnames, warnings));
      if line.None? {
        warnings := warnings + [i + 1];
      } else {
        cnames := cnames.Set(line.value.0, line.value.1);
      }
      i := i + 1;
    }
    p := Parsed(cnames, warnings);
  }

  // ---------------------------------------------------------------
  // What a parse yields
  // ---------------------------------------------------------------

  predicate Yields(read: LineReader, line: string, key: string) {
    read(line).Some? && read(line).value.0 == key
  }

  /** A line is warned about exactly when the reader refuses it; the warnings come in line order. */
  lemma {:induction false} ReadWarnings(read: LineReader, lines: seq<string>, lo: nat, hi: nat)
    requires lo <= hi <= |lines|
    ensures forall n :: n in ReadLines(read, lines, lo, hi).warnings <==> lo < n <= hi && read(lines[n - 1]).None?
    ensures forall i, j :: 0 <= i < j < |ReadLines(read, lines, lo, hi).warnings| ==>
      ReadLines(read, lines, lo, hi).warnings[i] < ReadLines(read, lines, lo, hi).warnings[j]
    decreases hi
  {
    if hi > lo {
      ReadWarnings(read, lines, lo, hi - 1);
      var p := ReadLines(read, lines, lo, hi - 1);
      if read(lines[hi - 1]).None? {
        var w := p.warnings + [hi];
        assert ReadLines(read, lines, lo, hi).warnings == w;
        forall i, j | 0 <= i < j < |w| ensures w[i] < w[j] {
          if j == |w| - 1 {
            assert w[i] in p.warnings;
          }
        }
      }
    }
  }

  /** The keys read are exactly the keys of the lines the reader accepts. */
  lemma {:induction false} ReadKeys(read: LineReader, lines: seq<string>, lo: nat, hi: nat)
    requires lo <= hi <= |lines|
    ensures forall k :: k in ReadValues(read, lines, lo, hi) <==> exists i :: lo <= i < hi && Yields(read, lines[i], k)
    decreases hi
  {
    if hi > lo {
      ReadKeys(read, lines, lo, hi - 1);
      var before := ReadValues(read, lines, lo, hi - 1);
      var after := ReadValues(read, lines, lo, hi);
      forall k ensures k in after <==> exists i :: lo <= i < hi && Yields(read, lines[i], k) {
        if Yields(read, lines[hi - 1], k) {
          assert k in after;
        } else {
          assert k in after <==> k in before;
          if k in before {
            var i :| lo <= i < hi - 1 && Yields(read, lines[i], k);
            assert lo <= i < hi;
          }
          if exists i :: lo <= i < hi && Yields(read, lines[i], k) {
            var i :| lo <= i < hi && Yields(read, lines[i], k);
            assert i < hi - 1;
          }
        }
      }
    }
  }

  /** When a key is read from several lines, the last of them wins. */
  lemma {:induction false} ReadLastWins(read: LineReader, lines: seq<string>, lo: nat, hi: nat, i: nat)
    requires lo <= i < hi <= |lines| && read(lines[i]).Some?
    requires forall j :: i < j < hi ==> !Yields(read, lines[j], read(lines[i]).value.0)
    ensures read(lines[i]).value.0 in ReadValues(read, lines, lo, hi)
    ensures ReadValues(read, lines, lo, hi)[read(lines[i]).value.0] == read(lines[i]).value.1
    decreases hi
  {
    if i < hi - 1 {
      ReadLastWins(read, lines, lo, hi - 1, i);
      assert !Yields(read, lines[hi - 1], read(lines[i]).value.0);
    }
  }

  /** Lines that each yield a record, with no key repeated, give exactly those records and no warning. */
  lemma ReadAll(read: LineReader, lines: seq<string>, lo: nat, hi: nat, ks: seq<string>, es: seq<Entry>, p: Parsed)
    requires lo <= hi <= |lines| && |ks| == |es| == hi - lo && Distinct(ks)
    requires forall i :: lo <= i < hi ==> read(lines[i]) == Some((ks[i - lo], es[i - lo]))
    requires p == ReadLines(read, lines, lo, hi)
    ensures p.warnings == []
    ensures forall k :: k in p.cnames.values <==> k in ks
    ensures forall j :: 0 <= j < |ks| ==> p.cnames.values[ks[j]] == es[j]
  {
    NoWarnings(read, lines, lo, hi);
    ReadKeysOf(read, lines, lo, hi, ks, es);
    forall j | 0 <= j < |ks| ensures p.cnames.values[ks[j]] == es[j] {
      ReadValueOf(read, lines, lo, hi, ks, es, j);
    }
  }

  lemma {:induction false} NoWarnings(read: LineReader, lines: seq<string>, lo: nat, hi: nat)
    requires lo <= hi <= |lines|
    requires forall i :: lo <= i < hi ==> read(lines[i]).Some?
    ensures ReadLines(read, lines, lo, hi).warnings == []
    decreases hi
  {
    if hi > lo {
      NoWarnings(read, lines, lo, hi - 1);
    }
  }

  lemma ReadKeysOf(read: LineReader, lines: seq<string>, lo: nat, hi: nat, ks: seq<string>, es: seq<Entry>)
    requires lo <= hi <= |lines| && |ks| == |es| == hi - lo
    requires forall i :: lo <= i < hi ==> read(lines[i]) == Some((ks[i - lo], es[i - lo]))
    ensures forall k :: k in ReadValues(read, lines, lo, hi) <==> k in ks
  {
    ReadKeys(read, lines, lo, hi);
    forall k | k in ks ensures exists i :: lo <= i < hi && Yields(read, lines[i], k) {
      var j :| 0 <= j < |ks| && ks[j] == k;
      assert Yields(read, lines[lo + j], k);
    }
  }

  lemma ReadValueOf(read: LineReader, lines: seq<string>, lo: nat, hi: nat, ks: seq<string>, es: seq<Entry>, j: nat)
    requires lo <= hi <= |lines| && |ks| == |es| == hi - lo && Distinct(ks) && j < |ks|
    requires forall i :: lo <= i < hi ==> read(lines[i]) == Some((ks[i - lo], es[i - lo]))
    ensures ks[j] in ReadValues(read, lines, lo, hi)
    ensures ReadValues(read, lines, lo, hi)[ks[j]] == es[j]
  {
    assert read(lines[lo + j]) == Some((ks[j], es[j]));
    forall i | lo + j < i < hi ensures !Yields(read, lines[i], ks[j]) {
      assert read(lines[i]).value.0 == ks[i - lo];
    }
    ReadLastWins(read, lines, lo, hi, lo + j);
  }

  /**
   * Every record read has a lower-case key without a `.js.org` suffix
   * added back, and a marker whenever the key is a sub-sub-domain or the
   * target is Vercel's.
   */
  lemma ParseLineShape(line: string)
    requires ParseLine(line).Some?
    ensures var (key, e) := ParseLine(line).value;
      && (forall i :: 0 <= i < |key| ==> !IsUpper(key[i]))
      && ('.' in key || e.target == VercelTarget ==> Present(e.noCF))
      && e.http.None? && e.https.None? && e.failed.None? && e.issue.None? && e.contact.None?
  {
    var f := MatchEntry(line).value;
    var key := NormaliseKey(f.key);
    NoCFForced(key, NormaliseTarget(f.value), RenderedMarker(f.marker));
  }
}
