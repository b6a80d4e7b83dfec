/**
 * `FileTypeAnalyzer` of file_handling/analyze/file_type_analyzer.py: three
 * independent classifications of a file (by path suffix, by signature, by
 * the shape of its first lines) and the fixed precedence that merges them.
 * The file is given as its suffix and its bytes; reading it is not modelled.
 */
module FileTypeAnalyzer {
  import opened Wrappers
  import opened ByteCounting
  import opened FileTypes

  /** The only error of the classifier: `next(file)` on an empty file raises StopIteration. */
  datatype AnalyzeError = EmptyFile

  /** Lines are sampled up to this many: the first line and `range(20)` more. */
  const MaxSampledLines := 21
  /** Fewer sampled lines than this are too little evidence. */
  const MinSampledLines := 4

  // ---------------------------------------------------------------------------
  // Lines of a binary file

  /**
   * A line as iterating a binary file yields it: non-empty, with no `\n`
   * before its end, and ending in `\n` unless it is the file's last line.
   */
  predicate IsLine(line: seq<byte>, last: bool) {
    |line| > 0 && LF !in line[..|line| - 1] && (!last ==> line[|line| - 1] == LF)
  }

  /** The length of the first line of `s`, its `\n` included when it has one. */
  function LineEnd(s: seq<byte>): (k: nat)
    requires |s| > 0
    ensures 0 < k <= |s|
    ensures IsLine(s[..k], k == |s|)
  {
    if s[0] == LF || |s| == 1 then 1
    else
      var k := 1 + LineEnd(s[1..]);
      assert s[..k] == [s[0]] + s[1..][..k - 1];
      assert s[..k][..k - 1] == [s[0]] + s[1..][..k - 1][..k - 2];
      k
  }

  function Concat(lines: seq<seq<byte>>): seq<byte> {
    if lines == [] then [] else lines[0] + Concat(lines[1..])
  }

  /**
   * The lines a binary file yields when iterated. Joined together they give
   * back the file, and each is a line in the sense of `IsLine`.
   */
  function SplitLines(s: seq<byte>): (lines: seq<seq<byte>>)
    ensures Concat(lines) == s
    ensures |lines| == 0 <==> |s| == 0
    ensures forall i :: 0 <= i < |lines| ==> IsLine(lines[i], i == |lines| - 1)
    decreases |s|
  {
    if s == [] then []
    else
      var k := LineEnd(s);
      var rest := SplitLines(s[k..]);
      var lines := [s[..k]] + rest;
      assert lines[1..] == rest;
      assert Concat(lines) == s[..k] + s[k..] == s;
      assert forall i :: 0 < i < |lines| ==> lines[i] == rest[i - 1];
      lines
  }

  // ---------------------------------------------------------------------------
  // The first-line prefix rules

  const PrefixZip: seq<byte> := [0x50, 0x4B]                      // PK
  const PrefixXml: seq<byte> := [0x3C, 0x3F, 0x78, 0x6D, 0x6C]    // <?xml
  const PrefixJson: seq<byte> := [0x7B]                           // {
  const PrefixJsonl: seq<byte> := [0x5B]                          // [
  const PrefixPdf: seq<byte> := [0x49, 0x44]                      // ID

  predicate HasKnownPrefix(line: seq<byte>) {
    StartsWith(line, PrefixZip) || StartsWith(line, PrefixXml) || StartsWith(line, PrefixJson)
    || StartsWith(line, PrefixJsonl) || StartsWith(line, PrefixPdf)
  }

  /**
   * The prefix rules, tried in order PK, <?xml, {, [, ID. The five prefixes
   * start with five different bytes, so at most one applies.
   */
  function PrefixRule(line: seq<byte>): (r: Option<FileType>)
    ensures r.None? <==> !HasKnownPrefix(line)
    ensures r == Some(Zip) <==> StartsWith(line, PrefixZip)
    ensures r == Some(Xml) <==> StartsWith(line, PrefixXml)
    ensures r == Some(Json) <==> StartsWith(line, PrefixJson)
    ensures r == Some(Jsonl) <==> StartsWith(line, PrefixJsonl)
    ensures r == Some(Pdf) <==> StartsWith(line, PrefixPdf)
  {
    assert StartsWith(line, PrefixZip) ==> line[0] == 0x50;
    assert StartsWith(line, PrefixXml) ==> line[0] == 0x3C;
    assert StartsWith(line, PrefixJson) ==> line[0] == 0x7B;
    assert StartsWith(line, PrefixJsonl) ==> line[0] == 0x5B;
    assert StartsWith(line, PrefixPdf) ==> line[0] == 0x49;
    if StartsWith(line, PrefixZip) then Some(Zip)
    else if StartsWith(line, PrefixXml) then Some(Xml)
    else if StartsWith(line, PrefixJson) then Some(Json)
    else if StartsWith(line, PrefixJsonl) then Some(Jsonl)
    else if StartsWith(line, PrefixPdf) then Some(Pdf)
    else None
  }

  // ---------------------------------------------------------------------------
  // The delimiter rule: `Counter` over the delimiter bytes of the first line

  const Comma: byte := 0x2C
  const Tab: byte := 0x09
  const Bar: byte := 0x7C
  const Semicolon: byte := 0x3B
  /** The candidate delimiters `,` tab `|` `;`. */
  const DelimiterBytes: seq<byte> := [Comma, Tab, Bar, Semicolon]

  lemma FirstIndexAt(line: seq<byte>, i: nat)
    requires i < |line| && line[i] !in line[..i]
    ensures FirstIndex(line, line[i]) == i
  {
    var f := FirstIndex(line, line[i]);
    assert forall p :: 0 <= p < i ==> line[..i][p] == line[p];
    assert forall p :: 0 <= p < f ==> line[..f][p] == line[p];
  }

  /**
   * The keys of the `Counter` built from `line[i..]`, in its insertion order:
   * each delimiter byte whose first occurrence in `line` is at or after `i`.
   */
  function CounterKeys(line: seq<byte>, i: nat): (keys: seq<byte>)
    requires i <= |line|
    decreases |line| - i
  {
    if i == |line| then []
    else if line[i] in DelimiterBytes && line[i] !in line[..i] then [line[i]] + CounterKeys(line, i + 1)
    else CounterKeys(line, i + 1)
  }

  /** Every key of the counter is a delimiter byte of `line` first occurring at or after `i`. */
  lemma {:induction false} CounterKeysMembers(line: seq<byte>, i: nat)
    requires i <= |line|
    ensures forall d :: d in CounterKeys(line, i) ==> d in DelimiterBytes && d in line && FirstIndex(line, d) >= i
    decreases |line| - i
  {
    if i < |line| {
      CounterKeysMembers(line, i + 1);
      if line[i] in DelimiterBytes && line[i] !in line[..i] {
        FirstIndexAt(line, i);
      }
    }
  }

  /** Every key occurs in `line`, and the keys are in order of their first occurrence there. */
  predicate FirstOccurrenceOrdered(line: seq<byte>, keys: seq<byte>) {
    && (forall j :: 0 <= j < |keys| ==> keys[j] in line)
    && (forall j, k :: 0 <= j < k < |keys| ==> FirstIndex(line, keys[j]) < FirstIndex(line, keys[k]))
  }

  /** The counter's keys are ordered by their first occurrence in `line`. */
  lemma {:induction false} CounterKeysOrdered(line: seq<byte>, i: nat)
    requires i <= |line|
    ensures FirstOccurrenceOrdered(line, CounterKeys(line, i))
    decreases |line| - i
  {
    if i < |line| {
      CounterKeysOrdered(line, i + 1);
      var rest := CounterKeys(line, i + 1);
      if line[i] in DelimiterBytes && line[i] !in line[..i] {
        CounterKeysMembers(line, i + 1);
        FirstIndexAt(line, i);
        OrderedCons(line, line[i], rest);
      }
    }
  }

  /** A key occurring before every key of an ordered sequence can be put in front of it. */
  lemma OrderedCons(line: seq<byte>, x: byte, rest: seq<byte>)
    requires x in line && FirstOccurrenceOrdered(line, rest)
    requires forall d :: d in rest ==> d in line && FirstIndex(line, x) < FirstIndex(line, d)
    ensures FirstOccurrenceOrdered(line, [x] + rest)
  {
    var keys := [x] + rest;
    assert forall j :: 0 < j < |keys| ==> keys[j] == rest[j - 1] && rest[j - 1] in rest;
  }

  /** Every delimiter byte of `line` first occurring at or after `i` is a key of the counter. */
  lemma {:induction false} CounterKeysComplete(line: seq<byte>, i: nat)
    requires i <= |line|
    ensures forall d :: d in DelimiterBytes && d in line && FirstIndex(line, d) >= i ==> d in CounterKeys(line, i)
    decreases |line| - i
  {
    if i < |line| {
      CounterKeysComplete(line, i + 1);
      forall d | d in line && FirstIndex(line, d) == i
        ensures d == line[i] && line[i] !in line[..i]
      {
      }
    }
  }

  /**
   * The key at `best`, a first largest of the counts, beats every other
   * delimiter byte `d`: by count, and by first occurrence on a tie.
   */
  lemma LargestKeyWins(line: seq<byte>, counts: seq<int>, best: nat, d: byte)
    requires |counts| == |CounterKeys(line, 0)|
    requires forall j :: 0 <= j < |counts| ==> counts[j] == CountOf(line, [CounterKeys(line, 0)[j]]) as int
    requires best < |counts| && CounterKeys(line, 0)[best] in line
    requires forall j :: 0 <= j < |counts| ==> counts[j] <= counts[best]
    requires forall j :: 0 <= j < best ==> counts[j] < counts[best]
    requires d in DelimiterBytes
    ensures var w := CounterKeys(line, 0)[best];
      && CountOf(line, [d]) <= CountOf(line, [w])
      && (d in line && d != w && CountOf(line, [d]) == CountOf(line, [w]) ==> FirstIndex(line, w) < FirstIndex(line, d))
  {
    var keys := CounterKeys(line, 0);
    CountOfPositive(line, d);
    if d in line {
      CounterKeysComplete(line, 0);
      var j :| 0 <= j < |keys| && keys[j] == d;
      assert counts[j] <= counts[best];
      if d != keys[best] && CountOf(line, [d]) == CountOf(line, [keys[best]]) {
        CounterKeysOrdered(line, 0);
        assert best < j;
      }
    }
  }

  /**
   * `w` is what `counts.most_common(1)` picks: a delimiter byte of `line`
   * whose count no delimiter exceeds, and that occurs first among those
   * with the same count.
   */
  ghost predicate MostCommon(line: seq<byte>, w: byte) {
    && w in DelimiterBytes && w in line
    && forall d :: d in DelimiterBytes ==>
         && CountOf(line, [d]) <= CountOf(line, [w])
         && (d in line && d != w && CountOf(line, [d]) == CountOf(line, [w]) ==> FirstIndex(line, w) < FirstIndex(line, d))
  }

  /** At most one delimiter byte is the most common one. */
  lemma MostCommonUnique(line: seq<byte>, a: byte, b: byte)
    requires MostCommon(line, a) && MostCommon(line, b)
    ensures a == b
  {
  }

  /**
   * `counts.most_common(1)[0][0]`: the delimiter byte of `line` with the
   * largest count; among equal counts, the one that occurs first in the line.
   * None when the line holds no delimiter byte at all.
   */
  function MostCommonDelimiter(line: seq<byte>): (r: Option<byte>)
    ensures r.None? <==> forall d :: d in DelimiterBytes ==> d !in line
    ensures r.Some? ==> r.value in DelimiterBytes && r.value in line
    ensures r.Some? ==> forall d :: d in DelimiterBytes ==> CountOf(line, [d]) <= CountOf(line, [r.value])
    ensures r.Some? ==> forall d :: (d in DelimiterBytes && d in line && d != r.value
              && CountOf(line, [d]) == CountOf(line, [r.value])) ==> FirstIndex(line, r.value) < FirstIndex(line, d)
  {
    var keys := CounterKeys(line, 0);
    CounterKeysMembers(line, 0);
    if |keys| == 0 then
      CounterKeysComplete(line, 0);
      None
    else
      var counts := seq(|keys|, j requires 0 <= j < |keys| => CountOf(line, [keys[j]]) as int);
      var best := FirstMaxIndex(counts);
      assert best < |keys|;
      assert keys[best] in DelimiterBytes && keys[best] in line;
      forall d | d in DelimiterBytes
        ensures CountOf(line, [d]) <= CountOf(line, [keys[best]])
        ensures (d in line && d != keys[best] && CountOf(line, [d]) == CountOf(line, [keys[best]]))
                  ==> FirstIndex(line, keys[best]) < FirstIndex(line, d)
      {
        LargestKeyWins(line, counts, best, d);
      }
      Some(keys[best])
  }

  /**
   * The delimiter rule: when the most common delimiter byte of the first
   * line occurs more than once, comma or semicolon gives CSV, tab TSV and
   * pipe PIPE.
   */
  function DelimiterRule(line: seq<byte>): (r: Option<FileType>)
    ensures r.Some? <==> exists d :: d in DelimiterBytes && CountOf(line, [d]) > 1
    ensures r.Some? ==> r.value in {Csv, Tsv, Pipe}
    ensures r == Some(Tsv) ==> forall d :: d in DelimiterBytes ==> CountOf(line, [d]) <= CountOf(line, [Tab])
    ensures r == Some(Pipe) ==> forall d :: d in DelimiterBytes ==> CountOf(line, [d]) <= CountOf(line, [Bar])
    ensures r == Some(Csv) ==>
              exists c :: c in [Comma, Semicolon] && forall d :: d in DelimiterBytes ==> CountOf(line, [d]) <= CountOf(line, [c])
    ensures forall w :: MostCommon(line, w) && CountOf(line, [w]) > 1 ==>
              r == Some(if w == Tab then Tsv else if w == Bar then Pipe else Csv)
  {
    match MostCommonDelimiter(line)
    case None =>
      forall d | d in DelimiterBytes ensures CountOf(line, [d]) == 0 { CountOfPositive(line, d); }
      None
    case Some(d) =>
      assert MostCommon(line, d);
      forall w | MostCommon(line, w) ensures w == d { MostCommonUnique(line, w, d); }
      if CountOf(line, [d]) > 1 then
        if d == Comma then Some(Csv)
        else if d == Tab then Some(Tsv)
        else if d == Bar then Some(Pipe)
        else Some(Csv)
      else None
  }

  // ---------------------------------------------------------------------------
  // Classification by characteristics

  /** `len(Counter([len(line) for line in lines])) == 1` on a non-empty list. */
  predicate SameLength(lines: seq<seq<byte>>) {
    forall i, j :: 0 <= i < |lines| && 0 <= j < |lines| ==> |lines[i]| == |lines[j]|
  }

  /**
   * The rules applied to the sampled lines, in order: the prefix rules on the
   * first line, then the delimiter rule on the first line, then FIXED_WIDTH
   * when every sampled line (terminator included) has the same length, else
   * UNKNOWN.
   */
  function Classify(lines: seq<seq<byte>>): (r: FileType)
    requires |lines| > 0
    ensures HasKnownPrefix(lines[0]) ==> Some(r) == PrefixRule(lines[0])
    ensures r in {Csv, Tsv, Pipe} <==>
              !HasKnownPrefix(lines[0]) && exists d :: d in DelimiterBytes && CountOf(lines[0], [d]) > 1
    ensures r in {Csv, Tsv, Pipe} ==> Some(r) == DelimiterRule(lines[0])
    ensures r == FixedWidth <==>
              !HasKnownPrefix(lines[0]) && (forall d :: d in DelimiterBytes ==> CountOf(lines[0], [d]) <= 1)
              && SameLength(lines)
    ensures r == Unknown <==>
              !HasKnownPrefix(lines[0]) && (forall d :: d in DelimiterBytes ==> CountOf(lines[0], [d]) <= 1)
              && !SameLength(lines)
  {
    var first := lines[0];
    match PrefixRule(first)
    case Some(ft) => ft
    case None =>
      match DelimiterRule(first)
      case Some(ft) => ft
      case None => if SameLength(lines) then FixedWidth else Unknown
  }

  function Min(a: int, b: int): int { if a <= b then a else b }

  /**
   * `file_type_from_characteristics` over the lines the file yields: an empty
   * file raises; fewer than four lines give UNKNOWN before any rule is tried;
   * otherwise the rules see the first line and at most 21 lines in all.
   */
  function Characteristics(fileLines: seq<seq<byte>>): (r: Result<FileType, AnalyzeError>)
    ensures r.Err? <==> |fileLines| == 0
    ensures 0 < |fileLines| < MinSampledLines ==> r == Ok(Unknown)
    ensures |fileLines| >= MinSampledLines ==> r == Ok(Classify(fileLines[..Min(|fileLines|, MaxSampledLines)]))
  {
    if |fileLines| == 0 then Err(EmptyFile)
    else if |fileLines| < MinSampledLines then Ok(Unknown)
    else Ok(Classify(fileLines[..Min(|fileLines|, MaxSampledLines)]))
  }

  /**
   * The sampling loop of `file_type_from_characteristics`: take the first
   * line, then up to twenty more, stopping early (with UNKNOWN when fewer
   * than four lines were read) when the file runs out.
   */
  method FromCharacteristics(fileLines: seq<seq<byte>>) returns (r: Result<FileType, AnalyzeError>)
    ensures r == Characteristics(fileLines)
  {
    if |fileLines| == 0 {
      return Err(EmptyFile);
    }
    var firstLine := fileLines[0];
    var lines := [firstLine];
    var i := 0;
    while i < MaxSampledLines - 1
      invariant 0 <= i <= MaxSampledLines - 1
      invariant i < |fileLines|
      invariant lines == fileLines[..i + 1]
    {
      if i + 1 == |fileLines| {
        if i < MinSampledLines - 1 {
          return Ok(Unknown);
        }
        break;
      }
      lines := lines + [fileLines[i + 1]];
      i := i + 1;
    }
    assert lines == fileLines[..Min(|fileLines|, MaxSampledLines)];
    r := Ok(Classify(lines));
  }

  // ---------------------------------------------------------------------------
  // The merge

  /**
   * `file_type`'s precedence: the extension when signature or
   * characteristics agree with it, then the signature (agreeing with the
   * characteristics or alone), then FIXED_WIDTH from the characteristics
   * when the extension is unknown, then any known characteristics result,
   * and TEXT when all three are unknown. Steps 3 and 5 return what steps 4
   * and 6 would, so three tests decide the result.
   */
  function Merge(ext: FileType, sig: FileType, chars: FileType): (r: FileType)
    ensures r != Unknown
    ensures r == (if ext != Unknown && (ext == sig || ext == chars) then ext
                  else if sig != Unknown then sig
                  else if chars != Unknown then chars
                  else Text)
  {
    if ext == sig && ext != Unknown then ext
    else if ext == chars && ext != Unknown then ext
    else if sig == chars && sig != Unknown then sig
    else if sig != Unknown then sig
    else if ext == Unknown && chars == FixedWidth then chars
    else if chars != Unknown then chars
    else Text
  }

  /**
   * `FileTypeAnalyzer.file_type` for a file with the given path suffix and
   * contents: raises only for an empty file, and never answers UNKNOWN.
   */
  function FileTypeOf(suffix: string, content: seq<byte>): (r: Result<FileType, AnalyzeError>)
    ensures r.Err? <==> |content| == 0
    ensures r.Ok? ==> r.value != Unknown
    ensures r.Ok? ==> r.value in {FromExtension(suffix), FromSignature(content), Text}
                      || Ok(r.value) == Characteristics(SplitLines(content))
    ensures r.Ok? ==> Characteristics(SplitLines(content)).Ok?
    ensures r.Ok? ==> r.value == Merge(FromExtension(suffix), FromSignature(content), Characteristics(SplitLines(content)).value)
  {
    var ext := FromExtension(suffix);
    var sig := FromSignature(content);
    match Characteristics(SplitLines(content))
    case Err(e) => Err(e)
    case Ok(chars) => Ok(Merge(ext, sig, chars))
  }
}
