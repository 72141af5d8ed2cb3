/**
 * The server-sent-events reader `parse_stream` of the prompt submission
 * client: it reads the response body line by line, skips empty lines, stops
 * at the `data: [DONE]` sentinel, decodes each `data: ` line as one chunk of
 * the reply and ignores every other line.
 */
module EventStream {
  import opened Wrappers
  import opened Text

  /** One byte of a response body line. */
  type Byte = b: int | 0 <= b < 256

  /**
   * The bytes `bytes.strip()` removes: tab, line feed, vertical tab, form
   * feed, carriage return and space.
   */
  predicate IsAsciiWhitespace(b: Byte)
  {
    b == 9 || b == 10 || b == 11 || b == 12 || b == 13 || b == 32
  }

  /** `b"data: "`. */
  const DataPrefix: seq<Byte> := [0x64, 0x61, 0x74, 0x61, 0x3A, 0x20]

  /** `b"data: [DONE]"`. */
  const DoneSentinel: seq<Byte> := DataPrefix + [0x5B, 0x44, 0x4F, 0x4E, 0x45, 0x5D]

  /**
   * The `content` field of a chunk's delta as `delta.get("content", "")`
   * sees it: missing, a string, or a value of another JSON type (`null`, a
   * number, ...) that the later `"".join` cannot concatenate.
   */
  datatype Content = Absent | Str(value: string) | NotStr

  /** `chunk["choices"][0]["delta"]`: the part of a streamed chunk the client reads. */
  datatype Delta = Delta(content: Content)

  /**
   * `json.loads(payload.decode("utf-8"))["choices"][0]["delta"]` for one
   * payload, or `None` when the decoding or one of the lookups raises.
   */
  type Decoder = seq<Byte> -> Option<Delta>

  /** How `parse_stream` treats one line of the body. */
  datatype LineKind = Empty | Done | Data(payload: seq<Byte>) | Ignored

  function Classify(line: seq<Byte>): (k: LineKind)
    ensures k.Data? ==> line == DataPrefix + k.payload
    ensures k == Empty <==> line == []
  {
    if line == [] then Empty
    else if Trim(line, IsAsciiWhitespace) == DoneSentinel then Done
    else if |line| >= |DataPrefix| && line[..|DataPrefix|] == DataPrefix then Data(line[|DataPrefix|..])
    else Ignored
  }

  /**
   * The classification is exact: the sentinel is recognised after stripping,
   * the prefix on the line as read, and every non-empty line that is not the
   * sentinel and starts with `data: ` is a data line carrying the rest of it.
   */
  lemma ClassifyCases(line: seq<Byte>)
    ensures Classify(line) == Done <==> line != [] && Trim(line, IsAsciiWhitespace) == DoneSentinel
    ensures Classify(line).Data? <==>
      && line != [] && Trim(line, IsAsciiWhitespace) != DoneSentinel
      && |line| >= |DataPrefix| && line[..|DataPrefix|] == DataPrefix
    ensures Classify(line).Data? ==> Classify(line).payload == line[|DataPrefix|..]
    ensures Classify(line) == Ignored <==>
      && line != [] && Trim(line, IsAsciiWhitespace) != DoneSentinel
      && !(|line| >= |DataPrefix| && line[..|DataPrefix|] == DataPrefix)
  {
  }

  /** How the generator ended: normally (end of body or sentinel), or by an exception while decoding. */
  datatype Ending = Complete | Malformed

  /** The chunks `parse_stream` yields, in order, and how it stops. */
  datatype Parsed = Parsed(chunks: seq<Delta>, ending: Ending)

  function ParseStream(lines: seq<seq<Byte>>, decode: Decoder): (r: Parsed)
    ensures |r.chunks| <= |lines|
    ensures r.ending == Malformed ==> |r.chunks| < |lines|
  {
    if lines == [] then Parsed([], Complete)
    else match Classify(lines[0])
      case Done => Parsed([], Complete)
      case Data(p) =>
        (match decode(p)
         case None => Parsed([], Malformed)
         case Some(d) =>
           var rest := ParseStream(lines[1..], decode);
           Parsed([d] + rest.chunks, rest.ending))
      case _ => ParseStream(lines[1..], decode)
  }

  // ---------------------------------------------------------------------------
  // Reference definitions, free of decoding
  // ---------------------------------------------------------------------------

  /** The number of lines before the first sentinel line (all of them if there is none). */
  function LiveLength(lines: seq<seq<Byte>>): (n: nat)
    ensures n <= |lines|
    ensures n < |lines| ==> Classify(lines[n]) == Done
    ensures forall k :: 0 <= k < n ==> Classify(lines[k]) != Done
  {
    if lines == [] || Classify(lines[0]) == Done then 0 else 1 + LiveLength(lines[1..])
  }

  /** The payloads of the `data: ` lines before the first sentinel, in order. */
  function Payloads(lines: seq<seq<Byte>>): (ps: seq<seq<Byte>>)
    ensures |ps| <= LiveLength(lines)
  {
    if lines == [] then []
    else match Classify(lines[0])
      case Done => []
      case Data(p) => [p] + Payloads(lines[1..])
      case _ => Payloads(lines[1..])
  }

  // ---------------------------------------------------------------------------
  // Properties of parse_stream
  // ---------------------------------------------------------------------------

  /**
   * The yielded chunks are the decodings of the live payloads, in order: the
   * parse is complete exactly when every payload decodes, and otherwise it
   * stops at the first payload that does not, having yielded the ones before it.
   */
  lemma {:induction false} ChunksAreDecodedPayloads(lines: seq<seq<Byte>>, decode: Decoder)
    ensures var r := ParseStream(lines, decode); var ps := Payloads(lines);
      && |r.chunks| <= |ps| <= LiveLength(lines)
      && (forall k :: 0 <= k < |r.chunks| ==> decode(ps[k]) == Some(r.chunks[k]))
      && (r.ending == Complete <==> |r.chunks| == |ps|)
      && (r.ending == Malformed ==> decode(ps[|r.chunks|]) == None)
  {
    if lines != [] {
      var kind := Classify(lines[0]);
      if kind.Data? {
        ChunksAreDecodedPayloads(lines[1..], decode);
        DataLineStep(lines, decode);
        var r, ps := ParseStream(lines, decode), Payloads(lines);
        var r', ps' := ParseStream(lines[1..], decode), Payloads(lines[1..]);
        if decode(kind.payload).Some? {
          assert r.chunks == [decode(kind.payload).value] + r'.chunks;
          assert ps == [kind.payload] + ps';
          forall k | 0 <= k < |r.chunks| ensures decode(ps[k]) == Some(r.chunks[k]) {
            if k > 0 {
              assert ps[k] == ps'[k - 1] && r.chunks[k] == r'.chunks[k - 1];
            }
          }
          if r.ending == Malformed {
            assert ps[|r.chunks|] == ps'[|r'.chunks|];
          }
        }
      } else if !kind.Done? {
        ChunksAreDecodedPayloads(lines[1..], decode);
        assert ParseStream(lines, decode) == ParseStream(lines[1..], decode);
        assert Payloads(lines) == Payloads(lines[1..]);
      }
    }
  }

  /** One step of the parse over a `data: ` line whose payload decodes. */
  lemma DataLineStep(lines: seq<seq<Byte>>, decode: Decoder)
    requires lines != [] && Classify(lines[0]).Data?
    ensures var p := Classify(lines[0]).payload;
      && Payloads(lines) == [p] + Payloads(lines[1..])
      && (decode(p).None? ==> ParseStream(lines, decode) == Parsed([], Malformed))
      && (decode(p).Some? ==>
            ParseStream(lines, decode) == Parsed([decode(p).value] + ParseStream(lines[1..], decode).chunks, ParseStream(lines[1..], decode).ending))
  {
  }

  /** `pad` consists only of bytes that `bytes.strip()` removes. */
  predicate AllWhitespace(pad: seq<Byte>)
  {
    forall i :: 0 <= i < |pad| ==> IsAsciiWhitespace(pad[i])
  }

  /** The sentinel, even padded with whitespace, is recognised as the end of the stream. */
  lemma PaddedSentinelIsDone(before: seq<Byte>, after: seq<Byte>)
    requires AllWhitespace(before) && AllWhitespace(after)
    ensures Classify(before + DoneSentinel + after) == Done
  {
    TrimSurrounded(before, DoneSentinel, after, IsAsciiWhitespace);
  }

  /**
   * A `data: ` line whose payload starts with `{` (every JSON object) is a
   * data line carrying exactly that payload.
   */
  lemma JsonDataLine(payload: seq<Byte>)
    requires payload != [] && payload[0] == 0x7B
    ensures Classify(DataPrefix + payload) == Data(payload)
  {
    var line := DataPrefix + payload;
    var t := Trim(line, IsAsciiWhitespace);
    assert line[6] == 0x7B && !IsAsciiWhitespace(line[6]) && !IsAsciiWhitespace(line[0]);
    assert TrimStart(line, IsAsciiWhitespace) == line;
    TrimEndShape(line, IsAsciiWhitespace);
    assert |t| > 6 && t[6] == 0x7B;
    assert t[6] != DoneSentinel[6];
  }

  /** Parsing stops at the first sentinel line: nothing after it is read. */
  lemma {:induction false} StopsAtSentinel(before: seq<seq<Byte>>, done: seq<Byte>, after: seq<seq<Byte>>, decode: Decoder)
    requires Classify(done) == Done
    ensures ParseStream(before + [done] + after, decode) == ParseStream(before, decode)
  {
    if before == [] {
      assert (before + [done] + after)[0] == done;
    } else {
      assert (before + [done] + after)[0] == before[0];
      assert (before + [done] + after)[1..] == before[1..] + [done] + after;
      StopsAtSentinel(before[1..], done, after, decode);
    }
  }

  /** An empty line or a line that is neither the sentinel nor data changes nothing. */
  lemma {:induction false} SkipsOtherLines(before: seq<seq<Byte>>, line: seq<Byte>, after: seq<seq<Byte>>, decode: Decoder)
    requires Classify(line) == Empty || Classify(line) == Ignored
    ensures ParseStream(before + [line] + after, decode) == ParseStream(before + after, decode)
  {
    if before == [] {
      assert (before + [line] + after)[1..] == after;
      assert before + after == after;
    } else {
      assert (before + [line] + after)[0] == before[0];
      assert (before + [line] + after)[1..] == before[1..] + [line] + after;
      assert (before + after)[0] == before[0];
      assert (before + after)[1..] == before[1..] + after;
      SkipsOtherLines(before[1..], line, after, decode);
    }
  }
}
