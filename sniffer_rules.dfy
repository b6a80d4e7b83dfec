/**
 * The pure part of `FileSniffer` (file_handling/analyze/sniffer.py): the
 * dialect enumerations, `Encoding.get`, the counting rules for the delimiter,
 * the line terminator and the quote character, the header rule over parsed
 * rows, and the five-round encoding search. Library calls (decoding,
 * charset detection, CSV sniffing and parsing) and the file sampler are
 * given as functions in an `Oracles` value.
 */
module SnifferRules {
  import opened Wrappers
  import opened ByteCounting

  datatype Delimiter = NoDelimiter | Comma | Semicolon | Tab | Space
  datatype LineTerminator = Crlf | Lf | Cr
  datatype Quotechar = DoubleQuote | SingleQuote | Backtick | NoQuote
  /** Header.TRUE (`Present`) and Header.FALSE (`Absent`). */
  datatype Header = Present | Absent

  datatype Encoding =
    | Ascii | Ansi | Iso8859_1 | Windows1252 | Utf8Bom | Utf8 | Cp1252 | Latin1 | MacRoman
    | Utf16Be | Utf16Le | Utf16 | Utf32Be | Utf32Le | Utf32 | Cp850 | Cp1250 | Cp1251 | Cp1253

  /** What `get_data_type` answers for a field: int, float, datetime or str. */
  datatype DataType = IntType | FloatType | DateTimeType | StrType

  /** The exceptions the sniffer lets escape. */
  datatype SniffError =
    | EncodingException   // no agreeing encoding after five rounds
    | TypeError           // a setter was given a value outside its enumeration
    | AttributeError      // the lineterminator getter read a field that was never set
    | NoRows              // `next(reader)` on a sample without rows
    | ZeroDivision        // the first row has no fields
    | MissingField        // KeyError: no second row, or one shorter than the first

  /** The encodings in declaration order, the order `for encoding in Encoding` visits them. */
  const AllEncodings: seq<Encoding> :=
    [Ascii, Ansi, Iso8859_1, Windows1252, Utf8Bom, Utf8, Cp1252, Latin1, MacRoman,
     Utf16Be, Utf16Le, Utf16, Utf32Be, Utf32Le, Utf32, Cp850, Cp1250, Cp1251, Cp1253]

  lemma AllEncodingsComplete(e: Encoding)
    ensures e in AllEncodings
  {
  }

  /** The member's name, which `getattr(Encoding, name)` looks up. */
  function MemberName(e: Encoding): string {
    match e
    case Ascii => "ASCII"
    case Ansi => "ANSI"
    case Iso8859_1 => "ISO_8859_1"
    case Windows1252 => "WINDOWS_1252"
    case Utf8Bom => "UTF_8_BOM"
    case Utf8 => "UTF_8"
    case Cp1252 => "CP1252"
    case Latin1 => "LATIN_1"
    case MacRoman => "MACROMAN"
    case Utf16Be => "UTF_16_BE"
    case Utf16Le => "UTF_16_LE"
    case Utf16 => "UTF_16"
    case Utf32Be => "UTF_32_BE"
    case Utf32Le => "UTF_32_LE"
    case Utf32 => "UTF_32"
    case Cp850 => "CP850"
    case Cp1250 => "CP1250"
    case Cp1251 => "CP1251"
    case Cp1253 => "CP1253"
  }

  /** The member's value: the codec name handed to `bytes.decode`. */
  function CodecName(e: Encoding): string {
    match e
    case Ascii => "ascii"
    case Ansi => "ansi"
    case Iso8859_1 => "iso-8859-1"
    case Windows1252 => "windows-1252"
    case Utf8Bom => "utf-8-sig"
    case Utf8 => "utf-8"
    case Cp1252 => "cp1252"
    case Latin1 => "latin_1"
    case MacRoman => "macroman"
    case Utf16Be => "utf-16-be"
    case Utf16Le => "utf-16-le"
    case Utf16 => "utf-16"
    case Utf32Be => "utf-32-be"
    case Utf32Le => "utf-32-le"
    case Utf32 => "utf-32"
    case Cp850 => "cp850"
    case Cp1250 => "cp1250"
    case Cp1251 => "cp1251"
    case Cp1253 => "cp1253"
  }

  function UpperChar(c: char): char {
    if 'a' <= c <= 'z' then (c as int - 32) as char else c
  }

  /** `name.upper().replace("-", "_")`, with upper-casing of ASCII letters. */
  function NormalizeName(name: string): (r: string)
    ensures |r| == |name|
    ensures forall i :: 0 <= i < |name| ==> r[i] == (if name[i] == '-' then '_' else UpperChar(name[i]))
  {
    if name == [] then []
    else [if name[0] == '-' then '_' else UpperChar(name[0])] + NormalizeName(name[1..])
  }

  /** The first encoding of `members` whose member name is `name`. */
  function MemberNamed(name: string, members: seq<Encoding>): Option<Encoding> {
    if members == [] then None
    else if MemberName(members[0]) == name then Some(members[0])
    else MemberNamed(name, members[1..])
  }

  /** The search finds a member of that name, or there is none among `members`. */
  lemma {:induction false} MemberNamedMeaning(name: string, members: seq<Encoding>)
    ensures MemberNamed(name, members).Some? ==> MemberName(MemberNamed(name, members).value) == name
    ensures MemberNamed(name, members).None? ==> forall e :: e in members ==> MemberName(e) != name
  {
    if members != [] && MemberName(members[0]) != name {
      MemberNamedMeaning(name, members[1..]);
      assert forall e :: e in members ==> e == members[0] || e in members[1..];
    }
  }

  /**
   * `Encoding.get`: the member whose name is the normalised input, and None
   * for None or for any other name; it never raises.
   */
  function GetEncoding(name: Option<string>): (r: Option<Encoding>)
    ensures name.None? ==> r.None?
  {
    match name
    case None => None
    case Some(n) => MemberNamed(NormalizeName(n), AllEncodings)
  }

  /**
   * What `Encoding.get` answers: a member only when its name is the
   * normalised input, and None only when no member has that name.
   */
  lemma GetEncodingMeaning(name: string)
    ensures GetEncoding(Some(name)).Some? ==> NormalizeName(name) == MemberName(GetEncoding(Some(name)).value)
    ensures GetEncoding(Some(name)).None? ==> forall e :: MemberName(e) != NormalizeName(name)
  {
    var n := NormalizeName(name);
    MemberNamedMeaning(n, AllEncodings);
    if MemberNamed(n, AllEncodings).None? {
      forall e ensures MemberName(e) != n {
        AllEncodingsComplete(e);
      }
    }
  }

  lemma MemberNameInjective(a: Encoding, b: Encoding)
    requires MemberName(a) == MemberName(b)
    ensures a == b
  {
  }

  /** Names already in upper case, digits and underscores are left as they are. */
  lemma NormalizeNameIdentity(name: string)
    requires forall i :: 0 <= i < |name| ==> name[i] == '_' || 'A' <= name[i] <= 'Z' || '0' <= name[i] <= '9'
    ensures NormalizeName(name) == name
  {
  }

  /** Every member's own name is found again. */
  lemma GetEncodingOfMemberName(e: Encoding)
    ensures GetEncoding(Some(MemberName(e))) == Some(e)
  {
    NormalizeNameIdentity(MemberName(e));
    GetEncodingMeaning(MemberName(e));
    var r := GetEncoding(Some(MemberName(e)));
    if r.Some? { MemberNameInjective(e, r.value); }
  }

  lemma NormalizeNameTo(name: string, target: string)
    requires |name| == |target|
    requires forall i :: 0 <= i < |name| ==> (if name[i] == '-' then '_' else UpperChar(name[i])) == target[i]
    ensures NormalizeName(name) == target
  {
  }

  /**
   * Every member's codec name leads back to it, except "utf-8-sig": it
   * normalises to UTF_8_SIG while the member is named UTF_8_BOM.
   */
  lemma GetEncodingOfCodecName(e: Encoding)
    ensures GetEncoding(Some(CodecName(e))) == (if e == Utf8Bom then None else Some(e))
  {
    if e == Utf8Bom {
      BomCodecNameUnknown();
    } else {
      GetEncodingMeaning(CodecName(e));
      CodecNameNormalizes(e);
      var r := GetEncoding(Some(CodecName(e)));
      if r.Some? { MemberNameInjective(e, r.value); }
    }
  }

  lemma BomCodecNameUnknown()
    ensures GetEncoding(Some("utf-8-sig")) == None
  {
    NormalizeNameTo("utf-8-sig", "UTF_8_SIG");
    MemberNamedMeaning("UTF_8_SIG", AllEncodings);
    var r := MemberNamed("UTF_8_SIG", AllEncodings);
    if r.Some? { NoMemberNamedSig(r.value); }
  }

  lemma NoMemberNamedSig(e: Encoding)
    ensures MemberName(e) != "UTF_8_SIG"
  {
  }

  /** Every codec name but "utf-8-sig" normalises to its member's name (proved in three groups). */
  lemma CodecNameNormalizes(e: Encoding)
    requires e != Utf8Bom
    ensures NormalizeName(CodecName(e)) == MemberName(e)
  {
    if e in {Ascii, Ansi, Iso8859_1, Windows1252, Cp1252, Latin1} {
      CodePageCodecNames(e);
    } else if e in {MacRoman, Cp850, Cp1250, Cp1251, Cp1253, Utf8} {
      OtherCodecNames(e);
    } else {
      WideCodecNames(e);
    }
  }

  /** Codec names of the Western code pages. */
  lemma CodePageCodecNames(e: Encoding)
    requires e in {Ascii, Ansi, Iso8859_1, Windows1252, Cp1252, Latin1}
    ensures NormalizeName(CodecName(e)) == MemberName(e)
  {
    NormalizeNameTo(CodecName(e), MemberName(e));
  }

  /** Codec names of the other code pages and UTF-8. */
  lemma OtherCodecNames(e: Encoding)
    requires e in {MacRoman, Cp850, Cp1250, Cp1251, Cp1253, Utf8}
    ensures NormalizeName(CodecName(e)) == MemberName(e)
  {
    NormalizeNameTo(CodecName(e), MemberName(e));
  }

  /** Codec names of UTF-16 and UTF-32. */
  lemma WideCodecNames(e: Encoding)
    requires e in {Utf16Be, Utf16Le, Utf16, Utf32Be, Utf32Le, Utf32}
    ensures NormalizeName(CodecName(e)) == MemberName(e)
  {
    NormalizeNameTo(CodecName(e), MemberName(e));
  }

  // ---------------------------------------------------------------------------
  // Counting rules

  /** The byte string `delim.value.encode()` of each delimiter candidate. */
  function DelimiterBytes(d: Delimiter): seq<byte>
    requires d != NoDelimiter
  {
    match d
    case Comma => [0x2C]
    case Semicolon => [0x3B]
    case Tab => [0x09]
    case Space => [0x20]
  }

  /** The candidates of `infer_delimiter`, in declaration order without NONE. */
  const DelimiterCandidates: seq<Delimiter> := [Comma, Semicolon, Tab, Space]

  /** The position of a candidate among COMMA, SEMICOLON, TAB, SPACE. */
  function RankOfCandidate(d: Delimiter): (j: nat)
    requires d in DelimiterCandidates
    ensures j < |DelimiterCandidates| && DelimiterCandidates[j] == d
  {
    match d
    case Comma => 0
    case Semicolon => 1
    case Tab => 2
    case Space => 3
  }

  /** `sample.count(delim.value.encode())`. */
  function CandidateCount(sample: seq<byte>, d: Delimiter): nat
    requires d != NoDelimiter
  {
    CountOf(sample, DelimiterBytes(d))
  }

  /**
   * `infer_delimiter`: the candidate with the largest count in the sample,
   * the earliest of COMMA, SEMICOLON, TAB, SPACE on a tie. Never NONE.
   */
  function InferDelimiter(sample: seq<byte>): (r: Delimiter)
    ensures r in DelimiterCandidates
    ensures forall j :: 0 <= j < |DelimiterCandidates| ==>
              CandidateCount(sample, DelimiterCandidates[j]) <= CandidateCount(sample, r)
    ensures forall j :: 0 <= j < RankOfCandidate(r) ==>
              CandidateCount(sample, DelimiterCandidates[j]) < CandidateCount(sample, r)
  {
    var counts: seq<int> := [CandidateCount(sample, Comma), CandidateCount(sample, Semicolon),
                             CandidateCount(sample, Tab), CandidateCount(sample, Space)];
    assert forall j :: 0 <= j < 4 ==> counts[j] == CandidateCount(sample, DelimiterCandidates[j]);
    var k := FirstMaxIndex(counts);
    assert RankOfCandidate(DelimiterCandidates[k]) == k;
    DelimiterCandidates[k]
  }

  /**
   * `infer_line_terminator` as written: CRLF when the CRLF count exceeds
   * LF + 0.9 * CR (over integers: 10*crlf > 10*lf + 9*cr), else CRLF when
   * the LF and CR counts are equal, else the largest of the CRLF, LF, CR
   * counts, earliest on a tie. Because every `\r\n` is also counted as one
   * `\n` and one `\r`, the first test never passes and CRLF is never the
   * strict maximum: the answer is decided by LF against CR alone.
   */
  function InferLineTerminator(sample: seq<byte>): (r: LineTerminator)
    ensures r == Crlf <==> CountOf(sample, [LF]) == CountOf(sample, [CR])
    ensures r == Lf <==> CountOf(sample, [LF]) > CountOf(sample, [CR])
    ensures r == Cr <==> CountOf(sample, [LF]) < CountOf(sample, [CR])
  {
    var crlf := CountOf(sample, CRLF);
    var lf := CountOf(sample, [LF]);
    var cr := CountOf(sample, [CR]);
    CrlfCountAtMostLf(sample);
    CrlfCountAtMostCr(sample);
    if 10 * crlf > 10 * lf + 9 * cr then Crlf
    else if lf == cr then Crlf
    else
      var counts := [crlf, lf, cr];
      var k := FirstMaxIndex(counts);
      assert counts[0] == crlf && counts[1] == lf && counts[2] == cr;
      assert k == (if lf > cr then 1 else 2);
      [Crlf, Lf, Cr][k]
  }

  /** The weighted CRLF test of `infer_line_terminator` holds of no sample. */
  lemma WeightedCrlfTestNeverHolds(sample: seq<byte>)
    ensures !(10 * CountOf(sample, CRLF) > 10 * CountOf(sample, [LF]) + 9 * CountOf(sample, [CR]))
  {
    CrlfCountAtMostLf(sample);
  }

  /** A sample without any `\r` or `\n` infers CRLF, and so does one whose breaks are all `\r\n`. */
  lemma LineTerminatorEdgeCases(sample: seq<byte>)
    ensures LF !in sample && CR !in sample ==> InferLineTerminator(sample) == Crlf
    ensures OnlyCrlfBreaks(sample) ==> InferLineTerminator(sample) == Crlf
  {
    CountOfPositive(sample, LF);
    CountOfPositive(sample, CR);
    if OnlyCrlfBreaks(sample) { CrlfOnlyCounts(sample); }
  }

  /** Every `\r` of the sample is followed by `\n`, and every `\n` preceded by `\r`. */
  predicate OnlyCrlfBreaks(s: seq<byte>) {
    && (forall i :: 0 <= i < |s| && s[i] == CR ==> i + 1 < |s| && s[i + 1] == LF)
    && (forall i :: 0 <= i < |s| && s[i] == LF ==> 0 < i && s[i - 1] == CR)
  }

  lemma {:induction false} CrlfOnlyCounts(s: seq<byte>)
    requires OnlyCrlfBreaks(s)
    ensures CountOf(s, [LF]) == CountOf(s, CRLF) == CountOf(s, [CR])
    decreases |s|
  {
    if |s| > 0 {
      CountOfOneStep(s, LF);
      CountOfOneStep(s, CR);
      if s[0] == CR {
        assert |s| >= 2 && s[1] == LF && s[..2] == CRLF;
        CountOfOneStep(s[1..], LF);
        CountOfOneStep(s[1..], CR);
        assert s[1..][1..] == s[2..];
        assert OnlyCrlfBreaks(s[2..]) by {
          forall i | 0 <= i < |s[2..]| && s[2..][i] == LF ensures 0 < i && s[2..][i - 1] == CR {
            assert s[i + 2] == LF && s[i + 1] == CR;
          }
        }
        CrlfOnlyCounts(s[2..]);
      } else {
        assert s[0] != LF;
        if |s| >= 2 { assert s[..2] != CRLF; }
        assert OnlyCrlfBreaks(s[1..]) by {
          forall i | 0 <= i < |s[1..]| && s[1..][i] == LF ensures 0 < i && s[1..][i - 1] == CR {
            assert s[i + 1] == LF && s[i] == CR;
          }
        }
        CrlfOnlyCounts(s[1..]);
      }
    }
  }

  const DoubleQuoteByte: byte := 0x22
  const SingleQuoteByte: byte := 0x27
  const BacktickByte: byte := 0x60

  /** The short-circuit of `infer_quotechar`: none of `"` `'` `` ` `` occurs in the sample. */
  function NoQuoteBytes(sample: seq<byte>): (r: bool)
    ensures r <==> DoubleQuoteByte !in sample && SingleQuoteByte !in sample && BacktickByte !in sample
  {
    CountOfPositive(sample, DoubleQuoteByte);
    CountOfPositive(sample, SingleQuoteByte);
    CountOfPositive(sample, BacktickByte);
    CountOf(sample, [DoubleQuoteByte]) == 0 && CountOf(sample, [SingleQuoteByte]) == 0
    && CountOf(sample, [BacktickByte]) == 0
  }

  // ---------------------------------------------------------------------------
  // The header rule

  /** The three parse attempts of `get_data_type`: `int()`, `float()`, `datetime.strptime` over its formats. */
  datatype FieldParsers = FieldParsers(
    parsesInt: string -> bool,
    parsesFloat: string -> bool,
    parsesDateTime: string -> bool)

  /** `get_data_type`: the first parse that succeeds, in the order int, float, datetime; str when none does. */
  function GetDataType(p: FieldParsers, field: string): (t: DataType)
    ensures t == IntType <==> p.parsesInt(field)
    ensures t == FloatType <==> !p.parsesInt(field) && p.parsesFloat(field)
    ensures t == DateTimeType <==> !p.parsesInt(field) && !p.parsesFloat(field) && p.parsesDateTime(field)
    ensures t == StrType <==> !p.parsesInt(field) && !p.parsesFloat(field) && !p.parsesDateTime(field)
  {
    if p.parsesInt(field) then IntType
    else if p.parsesFloat(field) then FloatType
    else if p.parsesDateTime(field) then DateTimeType
    else StrType
  }

  /** The number of columns among the first `n` where the two rows' field types differ. */
  function DiffCount(p: FieldParsers, first: seq<string>, second: seq<string>, n: nat): nat
    requires n <= |first| && n <= |second|
  {
    if n == 0 then 0
    else DiffCount(p, first, second, n - 1)
         + (if GetDataType(p, first[n - 1]) != GetDataType(p, second[n - 1]) then 1 else 0)
  }

  /** The columns among the first `n` where the two rows' field types differ. */
  ghost function DiffColumns(p: FieldParsers, first: seq<string>, second: seq<string>, n: nat): set<nat>
    requires n <= |first| && n <= |second|
  {
    set i: nat | i < n && GetDataType(p, first[i]) != GetDataType(p, second[i])
  }

  lemma {:induction false} DiffCountIsColumnCount(p: FieldParsers, first: seq<string>, second: seq<string>, n: nat)
    requires n <= |first| && n <= |second|
    ensures DiffCount(p, first, second, n) == |DiffColumns(p, first, second, n)|
  {
    if n > 0 {
      DiffCountIsColumnCount(p, first, second, n - 1);
      var before := DiffColumns(p, first, second, n - 1);
      if GetDataType(p, first[n - 1]) != GetDataType(p, second[n - 1]) {
        assert DiffColumns(p, first, second, n) == before + {n - 1};
      } else {
        assert DiffColumns(p, first, second, n) == before;
      }
    }
  }

  predicate AllStr(p: FieldParsers, row: seq<string>) {
    forall i :: 0 <= i < |row| ==> GetDataType(p, row[i]) == StrType
  }

  /**
   * `infer_header` over the parsed rows: FALSE when some first-row field is
   * not a str; otherwise TRUE exactly when more than 10% of the first row's
   * columns change type in the second row. No rows, an empty first row, or
   * a second row that is missing or shorter than the first raise.
   */
  function HeaderRule(rows: seq<seq<string>>, p: FieldParsers): (r: Result<Header, SniffError>)
    ensures |rows| == 0 ==> r == Err(NoRows)
    ensures |rows| > 0 && !AllStr(p, rows[0]) ==> r == Ok(Absent)
    ensures r.Err? <==> |rows| == 0 || (AllStr(p, rows[0]) && (|rows[0]| == 0 || |rows| < 2 || |rows[1]| < |rows[0]|))
    ensures |rows| > 0 && AllStr(p, rows[0]) && |rows[0]| == 0 ==> r == Err(ZeroDivision)
    ensures |rows| > 0 && AllStr(p, rows[0]) && |rows[0]| > 0 && (|rows| < 2 || |rows[1]| < |rows[0]|) ==> r == Err(MissingField)
    ensures r == Ok(Present) <==>
              && |rows| >= 2 && AllStr(p, rows[0]) && 0 < |rows[0]| <= |rows[1]|
              && 10 * |DiffColumns(p, rows[0], rows[1], |rows[0]|)| > |rows[0]|
  {
    if |rows| == 0 then Err(NoRows)
    else if !AllStr(p, rows[0]) then Ok(Absent)
    else if |rows[0]| == 0 then Err(ZeroDivision)
    else if |rows| < 2 || |rows[1]| < |rows[0]| then Err(MissingField)
    else
      var width := |rows[0]|;
      DiffCountIsColumnCount(p, rows[0], rows[1], width);
      if 10 * DiffCount(p, rows[0], rows[1], width) > width then Ok(Present) else Ok(Absent)
  }

  /** Rows after the second never change the header decision. */
  lemma HeaderIgnoresLaterRows(rows: seq<seq<string>>, p: FieldParsers)
    requires |rows| >= 2
    ensures HeaderRule(rows, p) == HeaderRule(rows[..2], p)
  {
  }

  /** A string first row over a second row whose every column has another type is a header. */
  lemma HeaderWhenEveryColumnChanges(rows: seq<seq<string>>, p: FieldParsers)
    requires |rows| >= 2 && 0 < |rows[0]| <= |rows[1]| && AllStr(p, rows[0])
    requires forall i :: 0 <= i < |rows[0]| ==> GetDataType(p, rows[1][i]) != StrType
    ensures HeaderRule(rows, p) == Ok(Present)
  {
    DiffCountAllColumns(p, rows[0], rows[1], |rows[0]|);
    DiffCountIsColumnCount(p, rows[0], rows[1], |rows[0]|);
  }

  lemma {:induction false} DiffCountAllColumns(p: FieldParsers, first: seq<string>, second: seq<string>, n: nat)
    requires n <= |first| && n <= |second|
    requires forall i :: 0 <= i < n ==> GetDataType(p, first[i]) != GetDataType(p, second[i])
    ensures DiffCount(p, first, second, n) == n
  {
    if n > 0 { DiffCountAllColumns(p, first, second, n - 1); }
  }

  /** When the first two rows agree on every column's type, there is no header. */
  lemma NoHeaderWhenTypesAgree(rows: seq<seq<string>>, p: FieldParsers)
    requires |rows| >= 2 && 0 < |rows[0]| <= |rows[1]|
    requires forall i :: 0 <= i < |rows[0]| ==> GetDataType(p, rows[0][i]) == GetDataType(p, rows[1][i])
    ensures HeaderRule(rows, p) == Ok(Absent)
  {
    assert DiffColumns(p, rows[0], rows[1], |rows[0]|) == {};
  }

  // ---------------------------------------------------------------------------
  // The encoding search

  /** The library calls and the file sampler the sniffer relies on. */
  datatype Oracles = Oracles(
    decodes: (Encoding, seq<byte>) -> bool,         // `sample.decode(codec)` succeeds
    detect: seq<byte> -> Option<string>,             // `chardet.detect(sample)['encoding']`
    resample: int -> seq<byte>,                      // `File.get_random_sample(size)`
    sniffQuote: Delimiter -> Option<Quotechar>,      // `csv.Sniffer().sniff(...)` given the delimiter; None for csv.Error
    parse: (seq<byte>, Encoding, Delimiter, LineTerminator, Quotechar) -> seq<seq<string>>,  // `csv.reader` rows
    parsers: FieldParsers)

  /** The number of rounds `infer_encoding` makes. */
  const EncodingRounds := 5

  /**
   * Round `i` of `infer_encoding` and the ones after it, from the current
   * sample: answer the detector's guess when it names an encoding that
   * decodes the sample, else resample `bytes * i` bytes and go on; after
   * the fifth round raise. Also gives the sample the sniffer holds afterwards.
   */
  function EncodingSearch(o: Oracles, sample: seq<byte>, bytes: int, i: nat): (Result<Encoding, SniffError>, seq<byte>)
    requires i <= EncodingRounds
    decreases EncodingRounds - i
  {
    if i == EncodingRounds then (Err(EncodingException), sample)
    else
      var guess := GetEncoding(o.detect(sample));
      if guess.Some? && o.decodes(guess.value, sample) then (Ok(guess.value), sample)
      else EncodingSearch(o, o.resample(bytes * i), bytes, i + 1)
  }

  /** One round of the search, unfolded. */
  lemma EncodingSearchStep(o: Oracles, sample: seq<byte>, bytes: int, i: nat)
    requires i < EncodingRounds
    ensures var guess := GetEncoding(o.detect(sample));
      EncodingSearch(o, sample, bytes, i) ==
        if guess.Some? && o.decodes(guess.value, sample) then (Ok(guess.value), sample)
        else EncodingSearch(o, o.resample(bytes * i), bytes, i + 1)
  {
  }

  /** An encoding the search returns decodes the final sample and is the detector's guess for it. */
  lemma {:induction false} EncodingSearchAgrees(o: Oracles, sample: seq<byte>, bytes: int, i: nat)
    requires i <= EncodingRounds
    requires EncodingSearch(o, sample, bytes, i).0.Ok?
    ensures o.decodes(EncodingSearch(o, sample, bytes, i).0.value, EncodingSearch(o, sample, bytes, i).1)
    ensures GetEncoding(o.detect(EncodingSearch(o, sample, bytes, i).1)) == Some(EncodingSearch(o, sample, bytes, i).0.value)
    decreases EncodingRounds - i
  {
    if i < EncodingRounds {
      EncodingSearchStep(o, sample, bytes, i);
      var guess := GetEncoding(o.detect(sample));
      if !(guess.Some? && o.decodes(guess.value, sample)) {
        EncodingSearchAgrees(o, o.resample(bytes * i), bytes, i + 1);
      }
    }
  }

  /**
   * A failed search raises EncodingException after resampling in every
   * round, the last time with `bytes * 4` bytes.
   */
  lemma {:induction false} EncodingSearchFails(o: Oracles, sample: seq<byte>, bytes: int, i: nat)
    requires i < EncodingRounds
    requires EncodingSearch(o, sample, bytes, i).0.Err?
    ensures EncodingSearch(o, sample, bytes, i).0 == Err(EncodingException)
    ensures EncodingSearch(o, sample, bytes, i).1 == o.resample(bytes * (EncodingRounds - 1))
    decreases EncodingRounds - i
  {
    EncodingSearchStep(o, sample, bytes, i);
    if i + 1 < EncodingRounds {
      EncodingSearchFails(o, o.resample(bytes * i), bytes, i + 1);
    }
  }

  /** The samples drawn in rounds `i` to 4: `get_random_sample(bytes * j)` for each such j. */
  function Resamples(o: Oracles, bytes: int, i: nat): seq<seq<byte>>
    requires i <= EncodingRounds
    decreases EncodingRounds - i
  {
    if i == EncodingRounds then [] else [o.resample(bytes * i)] + Resamples(o, bytes, i + 1)
  }

  /** The sample left behind is the first one or one drawn in a round the search reached. */
  lemma {:induction false} EncodingSearchSample(o: Oracles, sample: seq<byte>, bytes: int, i: nat)
    requires i <= EncodingRounds
    ensures EncodingSearch(o, sample, bytes, i).1 in [sample] + Resamples(o, bytes, i)
    decreases EncodingRounds - i
  {
    if i < EncodingRounds {
      EncodingSearchStep(o, sample, bytes, i);
      var guess := GetEncoding(o.detect(sample));
      if !(guess.Some? && o.decodes(guess.value, sample)) {
        var next := o.resample(bytes * i);
        EncodingSearchSample(o, next, bytes, i + 1);
        var last := EncodingSearch(o, next, bytes, i + 1).1;
        assert EncodingSearch(o, sample, bytes, i).1 == last;
        assert Resamples(o, bytes, i) == [next] + Resamples(o, bytes, i + 1);
        assert last in Resamples(o, bytes, i);
      }
    }
  }

  /** The first resample of the search asks for `bytes * 0`, that is zero, bytes. */
  lemma FirstResampleIsEmptyRequest(o: Oracles, sample: seq<byte>, bytes: int)
    requires GetEncoding(o.detect(sample)).None? || !o.decodes(GetEncoding(o.detect(sample)).value, sample)
    ensures EncodingSearch(o, sample, bytes, 0) == EncodingSearch(o, o.resample(0), bytes, 1)
  {
  }
}
