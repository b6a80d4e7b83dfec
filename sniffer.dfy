/**
 * The stateful part of `FileSniffer` (file_handling/analyze/sniffer.py): the
 * sample it holds, the attribute behind each property, the validated
 * setters, and the getters that infer a characteristic on first use and
 * store it through the setter.
 *
 * `State` is a snapshot of the object's attributes. Each getter and setter
 * is specified by a function from the snapshot before the call to the answer
 * and the snapshot after it; the `FileSniffer` class holds the attributes as
 * fields, and each of its methods is proved to follow its function.
 */
module Sniffer {
  import opened Wrappers
  import opened ByteCounting
  import opened SnifferRules

  /** `FileSniffer.BYTES_TO_ANALYZE`. */
  const DefaultBytesToAnalyze := 16184

  /** A value handed to a property setter: a member of one of the enumerations, or any other object. */
  datatype Value =
    | EncodingValue(encoding: Encoding)
    | DelimiterValue(delimiter: Delimiter)
    | LineTerminatorValue(lineTerminator: LineTerminator)
    | QuotecharValue(quotechar: Quotechar)
    | HeaderValue(header: Header)
    | OtherValue   // a string, a bool, None, ...

  /** The attributes of a sniffer; None stands for an attribute that was never set. */
  datatype State = State(
    sample: seq<byte>,
    bytesToAnalyze: int,
    encoding: Option<Encoding>,                    // `_encoding`
    delimiter: Option<Delimiter>,                  // `_delimiter`
    lineTerminatorTested: Option<LineTerminator>,  // `_line_terminator`: what the lineterminator getter tests
    lineterminator: Option<LineTerminator>,        // `_lineterminator`: what the lineterminator setter writes
    quotechar: Option<Quotechar>,                  // `_quotechar`
    header: Option<Header>)                        // `_header`

  /** A new sniffer: the first sample, the sample size, and no characteristic set. */
  function Initial(sample: seq<byte>, bytes: Option<int>): State {
    State(sample, bytes.GetOr(DefaultBytesToAnalyze), None, None, None, None, None, None)
  }

  // ---------------------------------------------------------------------------
  // Setters: `input_type_validation` rejects a value of another type with TypeError

  function EncodingSetter(st: State, v: Value): (out: (Result<(), SniffError>, State))
    ensures out.0.Ok? <==> v.EncodingValue?
    ensures out.0.Err? ==> out == (Err(TypeError), st)
    ensures out.0.Ok? ==> out.1 == st.(encoding := Some(v.encoding))
  {
    if v.EncodingValue? then (Ok(()), st.(encoding := Some(v.encoding))) else (Err(TypeError), st)
  }

  function DelimiterSetter(st: State, v: Value): (out: (Result<(), SniffError>, State))
    ensures out.0.Ok? <==> v.DelimiterValue?
    ensures out.0.Err? ==> out == (Err(TypeError), st)
    ensures out.0.Ok? ==> out.1 == st.(delimiter := Some(v.delimiter))
  {
    if v.DelimiterValue? then (Ok(()), st.(delimiter := Some(v.delimiter))) else (Err(TypeError), st)
  }

  /** The lineterminator setter writes `_lineterminator`, never `_line_terminator`. */
  function LineTerminatorSetter(st: State, v: Value): (out: (Result<(), SniffError>, State))
    ensures out.0.Ok? <==> v.LineTerminatorValue?
    ensures out.0.Err? ==> out == (Err(TypeError), st)
    ensures out.0.Ok? ==> out.1 == st.(lineterminator := Some(v.lineTerminator))
    ensures out.1.lineTerminatorTested == st.lineTerminatorTested
  {
    if v.LineTerminatorValue? then (Ok(()), st.(lineterminator := Some(v.lineTerminator))) else (Err(TypeError), st)
  }

  function QuotecharSetter(st: State, v: Value): (out: (Result<(), SniffError>, State))
    ensures out.0.Ok? <==> v.QuotecharValue?
    ensures out.0.Err? ==> out == (Err(TypeError), st)
    ensures out.0.Ok? ==> out.1 == st.(quotechar := Some(v.quotechar))
  {
    if v.QuotecharValue? then (Ok(()), st.(quotechar := Some(v.quotechar))) else (Err(TypeError), st)
  }

  function HeaderSetter(st: State, v: Value): (out: (Result<(), SniffError>, State))
    ensures out.0.Ok? <==> v.HeaderValue?
    ensures out.0.Err? ==> out == (Err(TypeError), st)
    ensures out.0.Ok? ==> out.1 == st.(header := Some(v.header))
  {
    if v.HeaderValue? then (Ok(()), st.(header := Some(v.header))) else (Err(TypeError), st)
  }

  // ---------------------------------------------------------------------------
  // Getters

  /**
   * The encoding getter: the stored encoding, or else the result of the
   * encoding search, stored when there is one. The search replaces the
   * sample even when it raises.
   */
  function EncodingGetter(o: Oracles, st: State): (out: (Result<Encoding, SniffError>, State))
    ensures out.1 == st.(sample := out.1.sample, encoding := out.1.encoding)
    ensures st.encoding.Some? ==> out == (Ok(st.encoding.value), st)
    ensures out.0.Ok? <==> out.1.encoding.Some?
    ensures out.0.Ok? ==> out.1.encoding == Some(out.0.value)
    ensures st.encoding.None? && out.0.Ok? ==>
              o.decodes(out.0.value, out.1.sample) && GetEncoding(o.detect(out.1.sample)) == Some(out.0.value)
    ensures out.0.Err? ==> out.0 == Err(EncodingException)
  {
    if st.encoding.Some? then (Ok(st.encoding.value), st)
    else
      var search := EncodingSearch(o, st.sample, st.bytesToAnalyze, 0);
      if search.0.Ok? then
        EncodingSearchAgrees(o, st.sample, st.bytesToAnalyze, 0);
        (search.0, st.(sample := search.1, encoding := Some(search.0.value)))
      else
        EncodingSearchFails(o, st.sample, st.bytesToAnalyze, 0);
        (search.0, st.(sample := search.1))
  }

  function DelimiterGetter(st: State): (out: (Delimiter, State))
    ensures out.1 == st.(delimiter := Some(out.0))
    ensures st.delimiter.Some? ==> out.0 == st.delimiter.value
    ensures st.delimiter.None? ==> out.0 == InferDelimiter(st.sample) && out.0 != NoDelimiter
  {
    if st.delimiter.Some? then (st.delimiter.value, st) else (InferDelimiter(st.sample), st.(delimiter := Some(InferDelimiter(st.sample))))
  }

  /**
   * The lineterminator getter tests `_line_terminator`, which no setter
   * writes, so it infers again and stores through the setter on every call,
   * whatever was stored before.
   */
  function LineTerminatorGetter(st: State): (out: (Result<LineTerminator, SniffError>, State))
    ensures out.1 == st.(lineterminator := out.1.lineterminator)
    ensures st.lineTerminatorTested.None? ==>
              out.0 == Ok(InferLineTerminator(st.sample)) && out.1.lineterminator == Some(InferLineTerminator(st.sample))
    ensures st.lineTerminatorTested.Some? ==> out.1 == st
    ensures out.0.Err? <==> st.lineTerminatorTested.Some? && st.lineterminator.None?
    ensures out.0.Err? ==> out.0 == Err(AttributeError)
  {
    var st1 := if st.lineTerminatorTested.None? then st.(lineterminator := Some(InferLineTerminator(st.sample))) else st;
    if st1.lineterminator.Some? then (Ok(st1.lineterminator.value), st1) else (Err(AttributeError), st1)
  }

  /**
   * `infer_quotechar`: read the encoding (which may resample), answer NONE
   * when no quote byte occurs in the sample, and otherwise read the delimiter
   * and take the sniffed quote character, NONE when sniffing fails.
   */
  function QuotecharInference(o: Oracles, st: State): (out: (Result<Quotechar, SniffError>, State))
    ensures out.1 == st.(sample := out.1.sample, encoding := out.1.encoding, delimiter := out.1.delimiter)
    ensures st.encoding.Some? ==> out.1.sample == st.sample
    ensures st.delimiter.Some? ==> out.1.delimiter == st.delimiter
    ensures out.0.Ok? <==> out.1.encoding.Some?
    ensures out.0.Err? ==> out.0 == Err(EncodingException)
    ensures out.0.Ok? && NoQuoteBytes(out.1.sample) ==> out.0.value == NoQuote && out.1.delimiter == st.delimiter
    ensures out.0.Ok? && !NoQuoteBytes(out.1.sample) ==>
              out.1.delimiter.Some? && out.0.value == o.sniffQuote(out.1.delimiter.value).GetOr(NoQuote)
  {
    var e := EncodingGetter(o, st);
    if e.0.Err? then (Err(e.0.error), e.1)
    else if NoQuoteBytes(e.1.sample) then (Ok(NoQuote), e.1)
    else
      var d := DelimiterGetter(e.1);
      (Ok(o.sniffQuote(d.0).GetOr(NoQuote)), d.1)
  }

  function QuotecharGetter(o: Oracles, st: State): (out: (Result<Quotechar, SniffError>, State))
    ensures out.1 == st.(sample := out.1.sample, encoding := out.1.encoding, delimiter := out.1.delimiter, quotechar := out.1.quotechar)
    ensures st.quotechar.Some? ==> out == (Ok(st.quotechar.value), st)
    ensures out.0.Ok? ==> out.1.quotechar == Some(out.0.value)
    ensures out.0.Err? ==> out.0 == Err(EncodingException) && out.1.quotechar.None?
    ensures st.encoding.Some? ==> out.1.encoding == st.encoding
    ensures st.delimiter.Some? ==> out.1.delimiter == st.delimiter
  {
    if st.quotechar.Some? then (Ok(st.quotechar.value), st)
    else
      var q := QuotecharInference(o, st);
      if q.0.Ok? then (q.0, q.1.(quotechar := Some(q.0.value))) else q
  }

  /**
   * `infer_header`: read the quote character, the delimiter and the line
   * terminator, take the sample as it is at that point, read the encoding,
   * and apply the header rule to the rows parsed from that sample.
   */
  function HeaderInference(o: Oracles, st: State): (out: (Result<Header, SniffError>, State))
    ensures out.1 == st.(sample := out.1.sample, encoding := out.1.encoding, delimiter := out.1.delimiter,
                         lineterminator := out.1.lineterminator, quotechar := out.1.quotechar)
    ensures out.0 != Err(TypeError)
    ensures out.0.Ok? ==> out.1.encoding.Some? && out.1.delimiter.Some? && out.1.quotechar.Some?
    ensures st.encoding.Some? ==> out.1.encoding == st.encoding && out.1.sample == st.sample
    ensures st.quotechar.Some? ==> out.1.quotechar == st.quotechar
    ensures out.0.Ok? ==> out.1.lineterminator.Some?
    ensures out.1.encoding.Some? && out.1.delimiter.Some? && out.1.lineterminator.Some? && out.1.quotechar.Some? ==>
              out.0 == HeaderRule(o.parse(QuotecharGetter(o, st).1.sample, out.1.encoding.value, out.1.delimiter.value,
                                          out.1.lineterminator.value, out.1.quotechar.value), o.parsers)
    ensures !(out.1.encoding.Some? && out.1.delimiter.Some? && out.1.lineterminator.Some? && out.1.quotechar.Some?) ==>
              out.0 in {Err(EncodingException), Err(AttributeError)}
  {
    var q := QuotecharGetter(o, st);
    if q.0.Err? then (Err(q.0.error), q.1)
    else
      var d := DelimiterGetter(q.1);
      var lt := LineTerminatorGetter(d.1);
      if lt.0.Err? then (Err(lt.0.error), lt.1)
      else
        var captured := lt.1.sample;
        var e := EncodingGetter(o, lt.1);
        if e.0.Err? then (Err(e.0.error), e.1)
        else (HeaderRule(o.parse(captured, e.0.value, d.0, lt.0.value, q.0.value), o.parsers), e.1)
  }

  function HeaderGetter(o: Oracles, st: State): (out: (Result<Header, SniffError>, State))
    ensures st.header.Some? ==> out == (Ok(st.header.value), st)
    ensures out.0.Ok? ==> out.1.header == Some(out.0.value)
    ensures out.0.Err? ==> out.1.header.None?
    ensures out.0 != Err(TypeError)
    ensures out.1.lineTerminatorTested == st.lineTerminatorTested && out.1.bytesToAnalyze == st.bytesToAnalyze
  {
    if st.header.Some? then (Ok(st.header.value), st)
    else
      var h := HeaderInference(o, st);
      if h.0.Ok? then (h.0, h.1.(header := Some(h.0.value))) else h
  }

  /**
   * With encoding, delimiter and quote character settled, the header read
   * applies the header rule to the rows of the current sample, split by the
   * line terminator inferred from it.
   */
  lemma HeaderOfSettledState(o: Oracles, st: State)
    requires st.header.None? && st.lineTerminatorTested.None?
    requires st.encoding.Some? && st.delimiter.Some? && st.quotechar.Some?
    ensures HeaderGetter(o, st).0 ==
              HeaderRule(o.parse(st.sample, st.encoding.value, st.delimiter.value,
                                 InferLineTerminator(st.sample), st.quotechar.value), o.parsers)
  {
    var q := QuotecharGetter(o, st);
    assert q == (Ok(st.quotechar.value), st);
    var lt := LineTerminatorGetter(st);
    assert lt.0 == Ok(InferLineTerminator(st.sample));
    assert EncodingGetter(o, lt.1) == (Ok(st.encoding.value), lt.1);
  }

  /**
   * With the quote character set by hand and the encoding not yet known,
   * the rows are parsed from the sample as it was before the encoding read,
   * but decoded with the encoding found for the sample that read leaves
   * behind, which may be a resample.
   */
  lemma HeaderParsesSampleBeforeEncodingRead(o: Oracles, st: State)
    requires st.header.None? && st.lineTerminatorTested.None?
    requires st.encoding.None? && st.quotechar.Some?
    requires EncodingGetter(o, st).0.Ok?
    ensures var e := EncodingGetter(o, st);
      && HeaderGetter(o, st).0 ==
           HeaderRule(o.parse(st.sample, e.0.value, st.delimiter.GetOr(InferDelimiter(st.sample)),
                              InferLineTerminator(st.sample), st.quotechar.value), o.parsers)
      && o.decodes(e.0.value, e.1.sample)
  {
    var q := QuotecharGetter(o, st);
    assert q == (Ok(st.quotechar.value), st);
    var d := DelimiterGetter(st);
    var lt := LineTerminatorGetter(d.1);
    assert lt.0 == Ok(InferLineTerminator(st.sample));
    var e := EncodingGetter(o, lt.1);
    var e0 := EncodingGetter(o, st);
    assert lt.1 == st.(delimiter := d.1.delimiter, lineterminator := lt.1.lineterminator);
    assert e.0 == e0.0 && e.1.sample == e0.1.sample by {
      assert e.0 == EncodingSearch(o, st.sample, st.bytesToAnalyze, 0).0;
    }
  }

  // ---------------------------------------------------------------------------
  // What the getters and setters promise together

  /** A getter that has answered answers the same again and changes nothing more. */
  lemma EncodingInferredOnce(o: Oracles, st: State)
    requires EncodingGetter(o, st).0.Ok?
    ensures EncodingGetter(o, EncodingGetter(o, st).1) == EncodingGetter(o, st)
  {
  }

  lemma DelimiterInferredOnce(st: State)
    ensures DelimiterGetter(DelimiterGetter(st).1) == DelimiterGetter(st)
  {
  }

  lemma QuotecharInferredOnce(o: Oracles, st: State)
    requires QuotecharGetter(o, st).0.Ok?
    ensures QuotecharGetter(o, QuotecharGetter(o, st).1) == QuotecharGetter(o, st)
  {
  }

  lemma HeaderInferredOnce(o: Oracles, st: State)
    requires HeaderGetter(o, st).0.Ok?
    ensures HeaderGetter(o, HeaderGetter(o, st).1) == HeaderGetter(o, st)
  {
  }

  /** A value accepted by a setter is what the getter answers next. */
  lemma SetThenGet(o: Oracles, st: State, e: Encoding, d: Delimiter, q: Quotechar, h: Header)
    ensures EncodingGetter(o, EncodingSetter(st, EncodingValue(e)).1).0 == Ok(e)
    ensures DelimiterGetter(DelimiterSetter(st, DelimiterValue(d)).1).0 == d
    ensures QuotecharGetter(o, QuotecharSetter(st, QuotecharValue(q)).1).0 == Ok(q)
    ensures HeaderGetter(o, HeaderSetter(st, HeaderValue(h)).1).0 == Ok(h)
  {
  }

  /**
   * While `_line_terminator` is unset, a line terminator given to the setter
   * is lost: the next read infers one from the sample.
   */
  lemma LineTerminatorSetterIgnored(st: State, given: LineTerminator)
    requires st.lineTerminatorTested.None?
    ensures LineTerminatorGetter(LineTerminatorSetter(st, LineTerminatorValue(given)).1).0 == Ok(InferLineTerminator(st.sample))
  {
  }

  /** No getter or setter ever sets `_line_terminator`, so from a new sniffer it stays unset. */
  lemma LineTerminatorTestedNeverSet(o: Oracles, st: State, v: Value)
    ensures EncodingSetter(st, v).1.lineTerminatorTested == st.lineTerminatorTested
    ensures DelimiterSetter(st, v).1.lineTerminatorTested == st.lineTerminatorTested
    ensures LineTerminatorSetter(st, v).1.lineTerminatorTested == st.lineTerminatorTested
    ensures QuotecharSetter(st, v).1.lineTerminatorTested == st.lineTerminatorTested
    ensures HeaderSetter(st, v).1.lineTerminatorTested == st.lineTerminatorTested
    ensures EncodingGetter(o, st).1.lineTerminatorTested == st.lineTerminatorTested
    ensures DelimiterGetter(st).1.lineTerminatorTested == st.lineTerminatorTested
    ensures LineTerminatorGetter(st).1.lineTerminatorTested == st.lineTerminatorTested
    ensures QuotecharGetter(o, st).1.lineTerminatorTested == st.lineTerminatorTested
    ensures HeaderGetter(o, st).1.lineTerminatorTested == st.lineTerminatorTested
  {
  }

  /**
   * With the encoding known and no quote byte in the sample, the quote
   * character is NONE and the delimiter is left as it was.
   */
  lemma QuotecharWithoutQuoteBytes(o: Oracles, st: State)
    requires st.encoding.Some? && st.quotechar.None? && NoQuoteBytes(st.sample)
    ensures QuotecharGetter(o, st) == (Ok(NoQuote), st.(quotechar := Some(NoQuote)))
  {
  }

  /** When the dialect sniff fails the quote character is NONE. */
  lemma QuotecharWhenSniffFails(o: Oracles, st: State)
    requires st.quotechar.None? && QuotecharGetter(o, st).0.Ok?
    requires forall d :: o.sniffQuote(d).None?
    ensures QuotecharGetter(o, st).0 == Ok(NoQuote)
  {
  }

  // ---------------------------------------------------------------------------
  // The object

  /** The encodings, in declaration order, that decode the sample: `candidates` in `infer_encoding`. */
  method DecodingCandidates(o: Oracles, s: seq<byte>) returns (candidates: seq<Encoding>)
    ensures forall e :: e in candidates <==> o.decodes(e, s)
  {
    candidates := [];
    for k := 0 to |AllEncodings|
      invariant forall e :: e in candidates <==> e in AllEncodings[..k] && o.decodes(e, s)
    {
      if o.decodes(AllEncodings[k], s) {
        candidates := candidates + [AllEncodings[k]];
      }
    }
    assert AllEncodings[..|AllEncodings|] == AllEncodings;
    forall e ensures e in AllEncodings {
      AllEncodingsComplete(e);
    }
  }

  /**
   * The body of one round of `infer_encoding`: the detector's guess when it
   * is among the encodings that decode the sample, else nothing, in which
   * case the search goes on from a new sample.
   */
  method EncodingRound(o: Oracles, current: seq<byte>, bytes: int, i: nat) returns (found: Option<Encoding>)
    requires i < EncodingRounds
    ensures found.Some? ==> o.decodes(found.value, current) && GetEncoding(o.detect(current)) == found
    ensures found.Some? ==> EncodingSearch(o, current, bytes, i) == (Ok(found.value), current)
    ensures found.None? ==> var guess := GetEncoding(o.detect(current)); guess.None? || !o.decodes(guess.value, current)
    ensures found.None? ==> EncodingSearch(o, current, bytes, i) == EncodingSearch(o, o.resample(bytes * i), bytes, i + 1)
  {
    var candidates := DecodingCandidates(o, current);
    var guess := GetEncoding(o.detect(current));
    EncodingSearchStep(o, current, bytes, i);
    if guess.Some? && guess.value in candidates {
      found := guess;
    } else {
      found := None;
    }
  }

  class FileSniffer {
    var sample: seq<byte>
    var bytesToAnalyze: int
    var encoding: Option<Encoding>
    var delimiter: Option<Delimiter>
    var lineTerminatorTested: Option<LineTerminator>
    var lineterminator: Option<LineTerminator>
    var quotechar: Option<Quotechar>
    var header: Option<Header>

    function Snapshot(): State
      reads this
    {
      State(sample, bytesToAnalyze, encoding, delimiter, lineTerminatorTested, lineterminator, quotechar, header)
    }

    /**
     * A sniffer over a first sample of the default size drawn from the file;
     * `bytes`, when given, sizes only the later resamples.
     */
    constructor(o: Oracles, bytes: Option<int>)
      ensures Snapshot() == Initial(o.resample(DefaultBytesToAnalyze), bytes)
    {
      sample := o.resample(DefaultBytesToAnalyze);
      bytesToAnalyze := bytes.GetOr(DefaultBytesToAnalyze);
      encoding, delimiter, lineTerminatorTested, lineterminator, quotechar, header := None, None, None, None, None, None;
    }

    method WriteEncoding(v: Value) returns (r: Result<(), SniffError>)
      modifies this
      ensures (r, Snapshot()) == EncodingSetter(old(Snapshot()), v)
    {
      if v.EncodingValue? {
        encoding := Some(v.encoding);
        r := Ok(());
      } else {
        r := Err(TypeError);
      }
    }

    method WriteDelimiter(v: Value) returns (r: Result<(), SniffError>)
      modifies this
      ensures (r, Snapshot()) == DelimiterSetter(old(Snapshot()), v)
    {
      if v.DelimiterValue? {
        delimiter := Some(v.delimiter);
        r := Ok(());
      } else {
        r := Err(TypeError);
      }
    }

    method WriteLineTerminator(v: Value) returns (r: Result<(), SniffError>)
      modifies this
      ensures (r, Snapshot()) == LineTerminatorSetter(old(Snapshot()), v)
    {
      if v.LineTerminatorValue? {
        lineterminator := Some(v.lineTerminator);
        r := Ok(());
      } else {
        r := Err(TypeError);
      }
    }

    method WriteQuotechar(v: Value) returns (r: Result<(), SniffError>)
      modifies this
      ensures (r, Snapshot()) == QuotecharSetter(old(Snapshot()), v)
    {
      if v.QuotecharValue? {
        quotechar := Some(v.quotechar);
        r := Ok(());
      } else {
        r := Err(TypeError);
      }
    }

    method WriteHeader(v: Value) returns (r: Result<(), SniffError>)
      modifies this
      ensures (r, Snapshot()) == HeaderSetter(old(Snapshot()), v)
    {
      if v.HeaderValue? {
        header := Some(v.header);
        r := Ok(());
      } else {
        r := Err(TypeError);
      }
    }

    /**
     * `infer_encoding`: in each of five rounds collect the encodings that
     * decode the sample, answer the detector's guess when it is among them,
     * and otherwise replace the sample by one of `bytesToAnalyze * i` bytes.
     */
    method InferEncoding(o: Oracles) returns (r: Result<Encoding, SniffError>)
      modifies this
      ensures (r, sample) == EncodingSearch(o, old(sample), bytesToAnalyze, 0)
      ensures Snapshot() == old(Snapshot()).(sample := sample)
    {
      var i := 0;
      while i < EncodingRounds
        invariant 0 <= i <= EncodingRounds
        invariant EncodingSearch(o, sample, bytesToAnalyze, i) == EncodingSearch(o, old(sample), bytesToAnalyze, 0)
        invariant Snapshot() == old(Snapshot()).(sample := sample)
      {
        var found := EncodingRound(o, sample, bytesToAnalyze, i);
        if found.Some? {
          return Ok(found.value);
        }
        sample := o.resample(bytesToAnalyze * i);
        i := i + 1;
      }
      r := Err(EncodingException);
    }

    method ReadEncoding(o: Oracles) returns (r: Result<Encoding, SniffError>)
      modifies this
      ensures (r, Snapshot()) == EncodingGetter(o, old(Snapshot()))
    {
      if encoding.None? {
        var inferred := InferEncoding(o);
        if inferred.Err? {
          EncodingSearchFails(o, old(sample), bytesToAnalyze, 0);
          return inferred;
        }
        var stored := WriteEncoding(EncodingValue(inferred.value));
      }
      r := Ok(encoding.value);
    }

    method ReadDelimiter() returns (d: Delimiter)
      modifies this
      ensures (d, Snapshot()) == DelimiterGetter(old(Snapshot()))
    {
      if delimiter.None? {
        var stored := WriteDelimiter(DelimiterValue(InferDelimiter(sample)));
      }
      d := delimiter.value;
    }

    method ReadLineTerminator() returns (r: Result<LineTerminator, SniffError>)
      modifies this
      ensures (r, Snapshot()) == LineTerminatorGetter(old(Snapshot()))
    {
      if lineTerminatorTested.None? {
        var stored := WriteLineTerminator(LineTerminatorValue(InferLineTerminator(sample)));
      }
      if lineterminator.None? {
        return Err(AttributeError);
      }
      r := Ok(lineterminator.value);
    }

    method InferQuotechar(o: Oracles) returns (r: Result<Quotechar, SniffError>)
      modifies this
      ensures (r, Snapshot()) == QuotecharInference(o, old(Snapshot()))
    {
      var e := ReadEncoding(o);
      if e.Err? {
        return Err(e.error);
      }
      if NoQuoteBytes(sample) {
        return Ok(NoQuote);
      }
      var d := ReadDelimiter();
      r := Ok(o.sniffQuote(d).GetOr(NoQuote));
    }

    method ReadQuotechar(o: Oracles) returns (r: Result<Quotechar, SniffError>)
      modifies this
      ensures (r, Snapshot()) == QuotecharGetter(o, old(Snapshot()))
    {
      if quotechar.None? {
        var inferred := InferQuotechar(o);
        if inferred.Err? {
          return inferred;
        }
        var stored := WriteQuotechar(QuotecharValue(inferred.value));
      }
      r := Ok(quotechar.value);
    }

    /** The quote character is read once more when it is not NONE; that read is answered from the cache. */
    method InferHeader(o: Oracles) returns (r: Result<Header, SniffError>)
      modifies this
      ensures (r, Snapshot()) == HeaderInference(o, old(Snapshot()))
    {
      var q := ReadQuotechar(o);
      if q.Err? {
        return Err(q.error);
      }
      var d := ReadDelimiter();
      var lt := ReadLineTerminator();
      if lt.Err? {
        return Err(lt.error);
      }
      var captured := sample;
      var e := ReadEncoding(o);
      if e.Err? {
        return Err(e.error);
      }
      r := HeaderRule(o.parse(captured, e.value, d, lt.value, q.value), o.parsers);
    }

    method ReadHeader(o: Oracles) returns (r: Result<Header, SniffError>)
      modifies this
      ensures (r, Snapshot()) == HeaderGetter(o, old(Snapshot()))
    {
      if header.None? {
        var inferred := InferHeader(o);
        if inferred.Err? {
          return inferred;
        }
        var stored := WriteHeader(HeaderValue(inferred.value));
      }
      r := Ok(header.value);
    }
  }

  // ---------------------------------------------------------------------------
  // Uses of a new sniffer

  /** On a new sniffer, a line terminator given to the setter is not what the getter answers. */
  method LineTerminatorAfterSetting(o: Oracles, given: LineTerminator) returns (r: Result<LineTerminator, SniffError>)
    ensures r == Ok(InferLineTerminator(o.resample(DefaultBytesToAnalyze)))
  {
    var sniffer := new FileSniffer(o, None);
    var stored := sniffer.WriteLineTerminator(LineTerminatorValue(given));
    r := sniffer.ReadLineTerminator();
  }

  /** On a new sniffer, reading the delimiter twice gives the inferred delimiter both times. */
  method DelimiterReadTwice(o: Oracles) returns (first: Delimiter, second: Delimiter)
    ensures first == second == InferDelimiter(o.resample(DefaultBytesToAnalyze))
  {
    var sniffer := new FileSniffer(o, None);
    first := sniffer.ReadDelimiter();
    second := sniffer.ReadDelimiter();
  }

  /** On a new sniffer, a value of the wrong type is refused and the getter still infers. */
  method WrongTypeRefused(o: Oracles, v: Value) returns (set_: Result<(), SniffError>, d: Delimiter)
    requires !v.DelimiterValue?
    ensures set_ == Err(TypeError)
    ensures d == InferDelimiter(o.resample(DefaultBytesToAnalyze))
  {
    var sniffer := new FileSniffer(o, None);
    set_ := sniffer.WriteDelimiter(v);
    d := sniffer.ReadDelimiter();
  }
}
