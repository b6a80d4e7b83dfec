/**
 * The `FileType` enumeration of file_handling/analyze/file_type_analyzer.py:
 * each variant's extension, description, byte signature, text flag and
 * default delimiter, plus the two table searches over it (by extension and
 * by signature). Both searches walk the variants in declaration order and
 * return the first match.
 */
module FileTypes {
  import opened Wrappers
  import opened ByteCounting

  datatype FileType =
    | Unknown | Pdf | ExcelLegacy | Excel | Csv | Json | Zip | Gzip | Tar
    | Xml | Html | Text | Jsonl | Tsv | Pipe | FixedWidth | Numbers | Pages

  /** The variants in declaration order, the order `for ft in FileType` visits them. */
  const AllFileTypes: seq<FileType> :=
    [Unknown, Pdf, ExcelLegacy, Excel, Csv, Json, Zip, Gzip, Tar,
     Xml, Html, Text, Jsonl, Tsv, Pipe, FixedWidth, Numbers, Pages]

  /** The position of a variant in declaration order. */
  function Rank(ft: FileType): (i: nat)
    ensures i < |AllFileTypes| && AllFileTypes[i] == ft
  {
    match ft
    case Unknown => 0
    case Pdf => 1
    case ExcelLegacy => 2
    case Excel => 3
    case Csv => 4
    case Json => 5
    case Zip => 6
    case Gzip => 7
    case Tar => 8
    case Xml => 9
    case Html => 10
    case Text => 11
    case Jsonl => 12
    case Tsv => 13
    case Pipe => 14
    case FixedWidth => 15
    case Numbers => 16
    case Pages => 17
  }

  function Extension(ft: FileType): string {
    match ft
    case Unknown => ""
    case Pdf => ".pdf"
    case ExcelLegacy => ".xls"
    case Excel => ".xlsx"
    case Csv => ".csv"
    case Json => ".json"
    case Zip => ".zip"
    case Gzip => ".gz"
    case Tar => ".tar"
    case Xml => ".xml"
    case Html => ".html"
    case Text => ".txt"
    case Jsonl => ".jsonl"
    case Tsv => ".tsv"
    case Pipe => ".pipe"
    case FixedWidth => ".fixed_width"
    case Numbers => ".numbers"
    case Pages => ".pages"
  }

  function Description(ft: FileType): string {
    match ft
    case Unknown => "An unknown file type"
    case Pdf => "A PDF file"
    case ExcelLegacy => "An Excel file"
    case Excel => "An Excel file"
    case Csv => "A CSV file"
    case Json => "A JSON file"
    case Zip => "A ZIP file"
    case Gzip => "A GZIP file"
    case Tar => "A TAR file"
    case Xml => "An XML file"
    case Html => "An HTML file"
    case Text => "A text file"
    case Jsonl => "A JSON Lines file"
    case Tsv => "A TSV file"
    case Pipe => "A pipe-delimited file"
    case FixedWidth => "A fixed width file"
    case Numbers => "Mac Numbers file"
    case Pages => "Mac Pages file"
  }

  /** The leading bytes that identify a binary format; empty means "no signature check". */
  function Signature(ft: FileType): seq<byte> {
    match ft
    case Pdf => [0x25, 0x50, 0x44, 0x46]                            // %PDF
    case ExcelLegacy => [0xD0, 0xCF, 0x11, 0xE0, 0xA1, 0xB1, 0x1A, 0xE1]
    case Excel => [0x50, 0x4B, 0x03, 0x04]                          // PK\x03\x04
    case Zip => [0x50, 0x4B, 0x03, 0x04]                            // PK\x03\x04
    case Gzip => [0x1F, 0x8B]
    case _ => []
  }

  function IsText(ft: FileType): bool {
    ft in {Csv, Json, Xml, Html, Text, Jsonl, Tsv, Pipe, FixedWidth}
  }

  /** The `delimiter` property: the declared delimiter of a text variant, else none. */
  function DefaultDelimiter(ft: FileType): (d: Option<char>)
    ensures d.Some? ==> IsText(ft)
    ensures d.Some? <==> ft in {Csv, Tsv, Pipe}
  {
    if !IsText(ft) then None
    else match ft
      case Csv => Some(',')
      case Tsv => Some('\t')
      case Pipe => Some('|')
      case _ => None
  }

  /** The first variant, from declaration position `from` on, whose extension equals `suffix`. */
  function FirstWithExtension(suffix: string, from: nat): (r: Option<FileType>)
    requires from <= |AllFileTypes|
    ensures r.Some? ==> Extension(r.value) == suffix && from <= Rank(r.value)
    ensures r.Some? ==> forall j :: from <= j < Rank(r.value) ==> Extension(AllFileTypes[j]) != suffix
    ensures r.None? ==> forall j :: from <= j < |AllFileTypes| ==> Extension(AllFileTypes[j]) != suffix
    decreases |AllFileTypes| - from
  {
    if from == |AllFileTypes| then None
    else if Extension(AllFileTypes[from]) == suffix then Some(AllFileTypes[from])
    else FirstWithExtension(suffix, from + 1)
  }

  /** `FileType.from_extension(suffix)`: the first variant with that extension, else UNKNOWN. */
  function FromExtension(suffix: string): (r: FileType)
    ensures Extension(r) == suffix || r == Unknown
    ensures (exists ft :: Extension(ft) == suffix) ==> Extension(r) == suffix
    ensures (forall ft :: Extension(ft) != suffix) ==> r == Unknown
    ensures suffix == "" ==> r == Unknown
  {
    match FirstWithExtension(suffix, 0)
    case Some(ft) => ft
    case None =>
      assert forall ft :: Extension(ft) != suffix by {
        forall ft ensures Extension(ft) != suffix { assert AllFileTypes[Rank(ft)] == ft; }
      }
      Unknown
  }

  /** No two variants share an extension, so looking up a variant's own extension gives it back. */
  lemma ExtensionRoundTrip(ft: FileType)
    ensures FromExtension(Extension(ft)) == ft
  {
    var r := FromExtension(Extension(ft));
    assert Extension(r) == Extension(ft);
  }

  /** The first 16 bytes of the file, which is all `file.read(16)` returns. */
  function Head(content: seq<byte>): (h: seq<byte>)
    ensures |h| <= 16 && |h| <= |content| && h == content[..|h|]
    ensures |content| >= 16 ==> |h| == 16
  {
    if |content| <= 16 then content else content[..16]
  }

  /** Whether the variant's signature is non-empty and starts the given header bytes. */
  predicate SignatureMatches(ft: FileType, head: seq<byte>) {
    Signature(ft) != [] && StartsWith(head, Signature(ft))
  }

  /** The first variant, from declaration position `from` on, whose signature matches `head`. */
  function FirstWithSignature(head: seq<byte>, from: nat): (r: Option<FileType>)
    requires from <= |AllFileTypes|
    ensures r.Some? ==> SignatureMatches(r.value, head) && from <= Rank(r.value)
    ensures r.Some? ==> forall j :: from <= j < Rank(r.value) ==> !SignatureMatches(AllFileTypes[j], head)
    ensures r.None? ==> forall j :: from <= j < |AllFileTypes| ==> !SignatureMatches(AllFileTypes[j], head)
    decreases |AllFileTypes| - from
  {
    if from == |AllFileTypes| then None
    else if SignatureMatches(AllFileTypes[from], head) then Some(AllFileTypes[from])
    else FirstWithSignature(head, from + 1)
  }

  /**
   * `file_type_from_signature`: the earliest declared variant whose non-empty
   * signature starts the first 16 bytes of the file, else UNKNOWN. EXCEL and
   * ZIP share the signature PK\x03\x04 and EXCEL is declared first, so the
   * result is never ZIP.
   */
  function FromSignature(content: seq<byte>): (r: FileType)
    ensures r == Unknown <==> forall ft :: !SignatureMatches(ft, Head(content))
    ensures r != Unknown ==> SignatureMatches(r, Head(content))
    ensures forall ft :: SignatureMatches(ft, Head(content)) ==> Rank(r) <= Rank(ft)
    ensures r != Zip
  {
    var head := Head(content);
    var found := FirstWithSignature(head, 0);
    assert !SignatureMatches(Unknown, head);
    if found.None? then
      assert forall ft :: !SignatureMatches(ft, head) by {
        forall ft ensures !SignatureMatches(ft, head) {
          assert AllFileTypes[Rank(ft)] == ft;
        }
      }
      Unknown
    else
      var ft := found.value;
      assert ft != Zip by {
        if ft == Zip { assert SignatureMatches(AllFileTypes[3], head); }
      }
      assert forall other :: SignatureMatches(other, head) ==> Rank(ft) <= Rank(other) by {
        forall other | SignatureMatches(other, head) ensures Rank(ft) <= Rank(other) {
          assert AllFileTypes[Rank(other)] == other;
        }
      }
      ft
  }

  /** A file that starts with PK\x03\x04 is classified by signature as EXCEL. */
  lemma ZipSignatureGivesExcel(content: seq<byte>)
    requires StartsWith(content, [0x50, 0x4B, 0x03, 0x04])
    ensures FromSignature(content) == Excel
  {
    var head := Head(content);
    assert head[..4] == content[..4];
    assert SignatureMatches(Excel, head);
  }
}
