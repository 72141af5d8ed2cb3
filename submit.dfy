/**
 * `submit_prompt` of the prompt submission client: endpoint mode selection,
 * the input prompt of the generate backend, the bounded retry around the chat
 * request, the streaming reply assembly loop, the final reply of each branch
 * and the text of the audit-log record.
 */
module Submit {
  import opened Wrappers
  import opened Text
  import opened Newlines
  import opened EventStream

  // ---------------------------------------------------------------------------
  // Endpoint mode
  // ---------------------------------------------------------------------------

  /** The default of the `LLM_URL` setting. */
  const DefaultUrl: string := "http://localhost:8001/v1/chat/completions"

  /** `megatron == False` (streamed chat completion, POST) or `True` (generate backend, PUT). */
  datatype Mode = Chat | Generate

  /** `url.split("/")[-1]`. */
  function LastSegment(url: string): string
  {
    var parts := Split(url, '/');
    parts[|parts| - 1]
  }

  /** The last URL segment that selects the generate backend. */
  const GenerateSegment: string := "generate"

  function SelectMode(url: string): (m: Mode)
    ensures m == Generate ==>
      |url| >= |GenerateSegment| && url[|url| - |GenerateSegment|..] == GenerateSegment
  {
    LastPieceShape(url, '/');
    if LastSegment(url) == GenerateSegment then Generate else Chat
  }

  /**
   * The generate backend is chosen exactly when the URL is `generate` itself
   * or ends in `/generate`.
   */
  lemma ModeBySuffix(url: string)
    ensures SelectMode(url) == Generate <==>
      (url == GenerateSegment
       || (|url| > |GenerateSegment| && url[|url| - |GenerateSegment| - 1..] == ['/'] + GenerateSegment))
  {
    assert '/' !in GenerateSegment;
    LastPieceIsWord(url, '/', GenerateSegment);
  }

  /** The default URL selects the streamed chat backend. */
  lemma DefaultUrlIsChat()
    ensures SelectMode(DefaultUrl) == Chat
  {
    ModeBySuffix(DefaultUrl);
    assert DefaultUrl[|DefaultUrl| - 9..][0] != '/';
  }

  /** A URL with a trailing slash, such as `.../generate/`, selects the chat backend. */
  lemma TrailingSlashIsChat(url: string)
    requires url != [] && url[|url| - 1] == '/'
    ensures LastSegment(url) == "" && SelectMode(url) == Chat
  {
    LastPieceShape(url, '/');
  }

  // ---------------------------------------------------------------------------
  // The input prompt and the echo strip of the generate backend
  // ---------------------------------------------------------------------------

  /** `f"{system_prompt}\n\n{user_prompt}"`. */
  function InputPrompt(systemPrompt: string, userPrompt: string): (p: string)
    ensures Count(p, '\n') == Count(systemPrompt, '\n') + 2 + Count(userPrompt, '\n')
  {
    CountConcat(systemPrompt + "\n\n", userPrompt, '\n');
    CountConcat(systemPrompt, "\n\n", '\n');
    assert "\n\n"[1..] == "\n" && "\n"[1..] == [];
    systemPrompt + "\n\n" + userPrompt
  }

  /** The input prompt is the system prompt's lines, one blank line, then the user prompt's lines. */
  lemma InputPromptLines(systemPrompt: string, userPrompt: string)
    ensures Split(InputPrompt(systemPrompt, userPrompt), '\n')
         == Split(systemPrompt, '\n') + [""] + Split(userPrompt, '\n')
  {
    assert InputPrompt(systemPrompt, userPrompt) == systemPrompt + ['\n'] + ("" + ['\n'] + userPrompt);
    SplitAtSeparator(systemPrompt, '\n', "" + ['\n'] + userPrompt);
    SplitAtSeparator("", '\n', userPrompt);
  }

  /** `s[..i] + p + s[i..]`: `p` put back at index `i`. */
  function Reinsert(s: string, p: string, i: nat): string
    requires i <= |s|
  {
    s[..i] + p + s[i..]
  }

  /**
   * `replace(prompt, "", 1)` deletes the FIRST occurrence of the prompt,
   * wherever it is, and nothing else: putting the prompt back at that index
   * restores the generated text.
   */
  lemma EchoStripFirstOccurrence(text: string, prompt: string, i: nat)
    requires OccursAt(text, prompt, i)
    requires forall j: nat :: j < i ==> !OccursAt(text, prompt, j)
    ensures var r := RemoveFirst(text, prompt);
      && r == text[..i] + text[i + |prompt|..]
      && |r| == |text| - |prompt|
      && Reinsert(r, prompt, i) == text
  {
    assert FindFirst(text, prompt) == Some(i);
    var r := RemoveFirst(text, prompt);
    assert r[..i] == text[..i];
    assert r[i..] == text[i + |prompt|..];
    assert text == text[..i] + text[i..i + |prompt|] + text[i + |prompt|..];
  }

  /** At most one occurrence is removed: the text is unchanged or one copy of the prompt shorter. */
  lemma EchoStripAtMostOnce(text: string, prompt: string)
    ensures var r := RemoveFirst(text, prompt);
      || r == text
      || (|r| == |text| - |prompt| && exists i: nat | i <= |r| :: Reinsert(r, prompt, i) == text)
  {
    match FindFirst(text, prompt)
    case None =>
    case Some(i) =>
      EchoStripFirstOccurrence(text, prompt, i);
  }

  /** The generate backend's example: the echoed prompt at the front is removed. */
  lemma EchoStripLeadingExample()
    ensures RemoveFirst("SYS\n\nUSR generated text", InputPrompt("SYS", "USR")) == " generated text"
  {
    var text, prompt := "SYS\n\nUSR generated text", InputPrompt("SYS", "USR");
    assert text == prompt + " generated text";
    assert text[0..|prompt|] == prompt;
    EchoStripFirstOccurrence(text, prompt, 0);
    assert text[|prompt|..] == " generated text";
  }

  /** The strip is not anchored: an echo after other text is removed too. */
  lemma EchoStripInteriorExample()
    ensures RemoveFirst("Re: SYS\n\nUSR!", InputPrompt("SYS", "USR")) == "Re: !"
  {
    var text, prompt := "Re: SYS\n\nUSR!", InputPrompt("SYS", "USR");
    forall j: nat | j < 4 ensures !OccursAt(text, prompt, j) {
      assert text[j] != 'S';
      if j + |prompt| <= |text| {
        assert text[j..j + |prompt|][0] == text[j];
      }
    }
    assert text[4..4 + |prompt|] == prompt;
    EchoStripFirstOccurrence(text, prompt, 4);
  }

  // ---------------------------------------------------------------------------
  // Reply assembly in the streaming branch
  // ---------------------------------------------------------------------------

  /** The exceptions `submit_prompt` can end with. */
  datatype SubmitError =
    | TransportError     // the single PUT to the generate backend raised
    | RetriesExhausted   // all attempts of the chat POST raised
    | MalformedChunk     // a `data: ` payload failed to decode or lacks `choices[0].delta`
    | ContentNotText     // a chunk's content is not a string, so `"".join` raises
    | NoChunks           // the stream yielded no chunk, so `formatted_reply` is never bound
    | UnexpectedShape    // the JSON body lacks the field the branch reads

  /** `m.get("content", "")` as `"".join` consumes it: `None` when join would raise. */
  function Piece(d: Delta): Option<string>
  {
    match d.content
    case Absent => Some("")
    case Str(s) => Some(s)
    case NotStr => None
  }

  /** `"".join([m.get("content", "") for m in collected])`, or `None` when it raises. */
  function Joined(ds: seq<Delta>): (r: Option<string>)
    ensures r.Some? <==> forall k :: 0 <= k < |ds| ==> Piece(ds[k]).Some?
  {
    if ds == [] then Some("")
    else
      var head, tail := Piece(ds[0]), Joined(ds[1..]);
      if head.Some? && tail.Some? then Some(head.value + tail.value) else None
  }

  /** The buffer is append-only: each chunk extends the text joined so far by its own content. */
  lemma {:induction false} JoinedSnoc(ds: seq<Delta>, d: Delta)
    requires Joined(ds).Some? && Piece(d).Some?
    ensures Joined(ds + [d]) == Some(Joined(ds).value + Piece(d).value)
  {
    if ds != [] {
      assert (ds + [d])[0] == ds[0] && (ds + [d])[1..] == ds[1..] + [d];
      JoinedSnoc(ds[1..], d);
      var h, j, p := Piece(ds[0]).value, Joined(ds[1..]).value, Piece(d).value;
      assert h + (j + p) == (h + j) + p;
      assert Joined(ds[1..] + [d]) == Some(j + p);
      assert Joined(ds) == Some(h + j);
      assert Joined(ds + [d]) == Some(h + (j + p));
    } else {
      assert ds + [d] == [d] && [d][1..] == [];
      assert Joined([d]) == Some(Piece(d).value + "");
      assert Joined(ds) == Some("");
      assert Piece(d).value + "" == "" + Piece(d).value;
    }
  }

  /** A chunk without `content` contributes `""`: removing it leaves the joined text unchanged. */
  lemma {:induction false} JoinedSkipsAbsent(before: seq<Delta>, after: seq<Delta>)
    ensures Joined(before + [Delta(Absent)] + after) == Joined(before + after)
  {
    if before == [] {
      var s := before + [Delta(Absent)] + after;
      assert s[0] == Delta(Absent) && s[1..] == after;
      assert before + after == after;
      if Joined(after).Some? {
        assert Joined(s) == Some("" + Joined(after).value);
        assert "" + Joined(after).value == Joined(after).value;
      }
    } else {
      assert (before + [Delta(Absent)] + after)[0] == before[0] == (before + after)[0];
      assert (before + [Delta(Absent)] + after)[1..] == before[1..] + [Delta(Absent)] + after;
      assert (before + after)[1..] == before[1..] + after;
      JoinedSkipsAbsent(before[1..], after);
    }
  }

  /** A chunk whose content is not text makes the join raise, whatever chunks follow it. */
  lemma JoinedNeverRecovers(ds: seq<Delta>, more: seq<Delta>)
    requires Joined(ds).None?
    ensures Joined(ds + more).None?
  {
    var k :| 0 <= k < |ds| && Piece(ds[k]).None?;
    assert (ds + more)[k] == ds[k];
  }

  /** The reply shown after each chunk: the normalised join of the chunks up to and including it. */
  function Shown(ds: seq<Delta>): (r: seq<string>)
    requires Joined(ds).Some?
    ensures |r| == |ds|
  {
    seq(|ds|, k requires 0 <= k < |ds| =>
      assert Joined(ds[..k + 1]).Some? by {
        assert forall j :: 0 <= j < k + 1 ==> ds[..k + 1][j] == ds[j];
      }
      NormalizeNewlines(Joined(ds[..k + 1]).value))
  }

  lemma ShownSnoc(ds: seq<Delta>, d: Delta)
    requires Joined(ds + [d]).Some?
    ensures Joined(ds).Some?
    ensures Shown(ds + [d]) == Shown(ds) + [NormalizeNewlines(Joined(ds + [d]).value)]
  {
    assert forall k :: 0 <= k < |ds| ==> (ds + [d])[k] == ds[k];
    assert forall j :: 1 <= j <= |ds| ==> (ds + [d])[..j] == ds[..j];
    assert (ds + [d])[..|ds| + 1] == ds + [d];
  }

  /**
   * The successive replies the streaming branch shows for a parsed stream, or
   * the exception that ends it. A chunk whose content is not a string raises
   * when it arrives, before any later malformed line is reached.
   */
  function Updates(parsed: Parsed): Result<seq<string>, SubmitError>
  {
    if Joined(parsed.chunks).None? then Failure(ContentNotText)
    else if parsed.ending == Malformed then Failure(MalformedChunk)
    else Success(Shown(parsed.chunks))
  }

  /** `parsed` with `prefix` yielded before it. */
  function After(prefix: seq<Delta>, parsed: Parsed): Parsed
  {
    Parsed(prefix + parsed.chunks, parsed.ending)
  }

  /**
   * One step of the streaming loop at line `i`, after the chunks `collected`
   * were yielded by the lines before it: what the whole parse is in terms of
   * the lines after `i`.
   */
  lemma ParseStreamStep(lines: seq<seq<Byte>>, i: nat, decode: Decoder, collected: seq<Delta>)
    requires i < |lines|
    requires ParseStream(lines, decode) == After(collected, ParseStream(lines[i..], decode))
    ensures var whole, next := ParseStream(lines, decode), ParseStream(lines[i + 1..], decode);
      match Classify(lines[i])
      case Done => whole == Parsed(collected, Complete)
      case Data(p) =>
        (decode(p).None? ==> whole == Parsed(collected, Malformed))
        && (decode(p).Some? ==> whole == After(collected + [decode(p).value], next))
      case _ => whole == After(collected, next)
  {
    var here, next := ParseStream(lines[i..], decode), ParseStream(lines[i + 1..], decode);
    assert lines[i..][0] == lines[i] && lines[i..][1..] == lines[i + 1..];
    match Classify(lines[i]) {
      case Done =>
        assert here == Parsed([], Complete);
        assert collected + [] == collected;
      case Data(p) =>
        if decode(p).None? {
          assert here == Parsed([], Malformed);
          assert collected + [] == collected;
        } else {
          var d := decode(p).value;
          assert here == After([d], next);
          ConcatAssoc(collected, [d], next.chunks);
        }
      case _ =>
        assert here == next;
    }
  }

  /**
   * The loop of `submit_prompt` over `parse_stream(response.iter_lines())`:
   * it collects each chunk's delta, recomputes the full joined reply and
   * normalises it for display after every chunk.
   */
  method CollectReplies(lines: seq<seq<Byte>>, decode: Decoder) returns (res: Result<seq<string>, SubmitError>)
    ensures res == Updates(ParseStream(lines, decode))
  {
    var collected: seq<Delta> := [];
    var shown: seq<string> := [];
    var i := 0;
    assert lines[0..] == lines;
    while i < |lines|
      invariant 0 <= i <= |lines|
      invariant ParseStream(lines, decode) == After(collected, ParseStream(lines[i..], decode))
      invariant Joined(collected).Some?
      invariant shown == Shown(collected)
    {
      ParseStreamStep(lines, i, decode, collected);
      match Classify(lines[i]) {
        case Done =>
          return Success(shown);
        case Data(payload) =>
          match decode(payload) {
            case None =>
              return Failure(MalformedChunk);
            case Some(delta) =>
              ghost var previous := collected;
              collected := collected + [delta];
              var fullReply := Joined(collected);
              if fullReply.None? {
                JoinedNeverRecovers(collected, ParseStream(lines[i + 1..], decode).chunks);
                return Failure(ContentNotText);
              }
              ShownSnoc(previous, delta);
              shown := shown + [NormalizeNewlines(fullReply.value)];
          }
        case _ =>
      }
      i := i + 1;
    }
    assert lines[i..] == [] && collected + [] == collected;
    return Success(shown);
  }

  // ---------------------------------------------------------------------------
  // The reply of each branch
  // ---------------------------------------------------------------------------

  /** The HTTP response, read the way each branch of `submit_prompt` reads it. */
  datatype Response = Response(
    lines: seq<seq<Byte>>,            // response.iter_lines()
    firstSentence: Option<string>,    // response.json()['sentences'][0]; None when that raises
    messageContent: Option<string>)   // response.json()["choices"][0]["message"]["content"]; None likewise

  /** The value `submit_prompt` returns once it holds `response`. */
  function Reply(url: string, systemPrompt: string, userPrompt: string, useStreamlit: bool,
                 response: Response, decode: Decoder): (r: Result<string, SubmitError>)
    ensures r.Failure? ==> r.error != TransportError && r.error != RetriesExhausted
    ensures SelectMode(url) == Generate ==> (r.Success? <==> response.firstSentence.Some?)
    ensures SelectMode(url) == Chat && !useStreamlit ==> (r.Success? <==> response.messageContent.Some?)
  {
    if SelectMode(url) == Generate then
      match response.firstSentence
      case None => Failure(UnexpectedShape)
      case Some(s) => Success(RemoveFirst(s, InputPrompt(systemPrompt, userPrompt)))
    else if useStreamlit then
      match Updates(ParseStream(response.lines, decode))
      case Failure(e) => Failure(e)
      case Success(shown) => if shown == [] then Failure(NoChunks) else Success(shown[|shown| - 1])
    else
      match response.messageContent
      case None => Failure(UnexpectedShape)
      case Some(c) => Success(NormalizeNewlines(c))
  }

  /**
   * In the streaming branch the call succeeds exactly when the stream ends
   * normally with at least one chunk and every content is text, and the reply
   * is then the normalised concatenation of all contents in arrival order.
   */
  lemma StreamedReply(url: string, systemPrompt: string, userPrompt: string, response: Response, decode: Decoder)
    requires SelectMode(url) == Chat
    ensures var p := ParseStream(response.lines, decode); var r := Reply(url, systemPrompt, userPrompt, true, response, decode);
      && (r.Success? <==> (p.ending == Complete && p.chunks != [] && Joined(p.chunks).Some?))
      && (r.Success? ==> r.value == NormalizeNewlines(Joined(p.chunks).value))
  {
    var p := ParseStream(response.lines, decode);
    if Joined(p.chunks).Some? && p.chunks != [] {
      assert p.chunks[..|p.chunks|] == p.chunks;
    }
  }

  /** A malformed `data: ` line makes the whole streamed call fail: no partial reply is returned. */
  lemma MalformedLineFailsCall(url: string, systemPrompt: string, userPrompt: string, response: Response, decode: Decoder)
    requires SelectMode(url) == Chat
    requires ParseStream(response.lines, decode).ending == Malformed
    ensures Reply(url, systemPrompt, userPrompt, true, response, decode).Failure?
  {
  }

  /** Every reply of the chat backend is normalised: all its newline runs have length two. */
  lemma ChatReplyIsNormalized(url: string, systemPrompt: string, userPrompt: string, useStreamlit: bool,
                              response: Response, decode: Decoder)
    requires SelectMode(url) == Chat
    requires Reply(url, systemPrompt, userPrompt, useStreamlit, response, decode).Success?
    ensures var r := Reply(url, systemPrompt, userPrompt, useStreamlit, response, decode).value;
      && RunsOfTwo(r) && NormalizeNewlines(r) == r
      && (!useStreamlit ==> response.messageContent.Some? && r == NormalizeNewlines(response.messageContent.value))
      && (useStreamlit ==> r == NormalizeNewlines(Joined(ParseStream(response.lines, decode).chunks).value))
  {
    var r := Reply(url, systemPrompt, userPrompt, useStreamlit, response, decode).value;
    if useStreamlit {
      StreamedReply(url, systemPrompt, userPrompt, response, decode);
      var p := ParseStream(response.lines, decode);
      NormalizedIsWellSpaced(Joined(p.chunks).value);
      NormalizeIdempotent(Joined(p.chunks).value);
    } else {
      NormalizedIsWellSpaced(response.messageContent.value);
      NormalizeIdempotent(response.messageContent.value);
    }
  }

  /** Empty lines and keep-alive lines in the body do not change the reply of any branch. */
  lemma ReplyIgnoresOtherLines(url: string, systemPrompt: string, userPrompt: string, useStreamlit: bool,
                               before: seq<seq<Byte>>, line: seq<Byte>, after: seq<seq<Byte>>,
                               firstSentence: Option<string>, messageContent: Option<string>, decode: Decoder)
    requires Classify(line) == Empty || Classify(line) == Ignored
    ensures Reply(url, systemPrompt, userPrompt, useStreamlit, Response(before + [line] + after, firstSentence, messageContent), decode)
         == Reply(url, systemPrompt, userPrompt, useStreamlit, Response(before + after, firstSentence, messageContent), decode)
  {
    SkipsOtherLines(before, line, after, decode);
  }

  /** The generate backend returns its text with the first echo of the input prompt removed. */
  lemma GenerateReplyIsEchoStripped(url: string, systemPrompt: string, userPrompt: string, useStreamlit: bool,
                                    response: Response, decode: Decoder)
    requires SelectMode(url) == Generate
    ensures var r, p := Reply(url, systemPrompt, userPrompt, useStreamlit, response, decode), InputPrompt(systemPrompt, userPrompt);
      && (r.Success? <==> response.firstSentence.Some?)
      && (r.Success? ==>
            var s := response.firstSentence.value;
            && r.value == RemoveFirst(s, p)
            && ((forall i: nat :: !OccursAt(s, p, i)) ==> r.value == s)
            && (forall i: nat :: OccursAt(s, p, i) && (forall j: nat :: j < i ==> !OccursAt(s, p, j)) ==>
                  r.value == s[..i] + s[i + |p|..]))
  {
    if response.firstSentence.Some? {
      var s, p := response.firstSentence.value, InputPrompt(systemPrompt, userPrompt);
      forall i: nat | OccursAt(s, p, i) && (forall j: nat :: j < i ==> !OccursAt(s, p, j))
        ensures RemoveFirst(s, p) == s[..i] + s[i + |p|..]
      {
        EchoStripFirstOccurrence(s, p, i);
      }
    }
  }

  /** The generate branch does not normalise: a run of three newlines survives. */
  lemma GenerateReplyNotNormalized(url: string, decode: Decoder)
    requires SelectMode(url) == Generate
    ensures var r := Reply(url, "S", "U", true, Response([], Some("S\n\nU\n\n\nHi"), None), decode);
      r == Success("\n\n\nHi") && !WellSpaced(r.value)
  {
    var text := "S\n\nU\n\n\nHi";
    assert OccursAt(text, InputPrompt("S", "U"), 0);
    EchoStripFirstOccurrence(text, InputPrompt("S", "U"), 0);
    assert "\n\n\nHi"[0] == '\n' && "\n\n\nHi"[1] == '\n' && "\n\n\nHi"[2] == '\n';
  }

  /** Two content chunks followed by the sentinel assemble into `"Hi there"`. */
  lemma HiThereExample(url: string, p1: seq<Byte>, p2: seq<Byte>, decode: Decoder)
    requires SelectMode(url) == Chat
    requires p1 != [] && p1[0] == 0x7B && p2 != [] && p2[0] == 0x7B
    requires decode(p1) == Some(Delta(Str("Hi"))) && decode(p2) == Some(Delta(Str(" there")))
    ensures Reply(url, "S", "U", true, Response([DataPrefix + p1, DataPrefix + p2, DoneSentinel], None, None), decode)
         == Success("Hi there")
  {
    var lines := [DataPrefix + p1, DataPrefix + p2, DoneSentinel];
    var chunks := [Delta(Str("Hi")), Delta(Str(" there"))];
    assert ParseStream(lines, decode) == Parsed(chunks, Complete) by {
      JsonDataLine(p1);
      JsonDataLine(p2);
      PaddedSentinelIsDone([], []);
      assert [] + DoneSentinel + [] == DoneSentinel;
      var tail := lines[1..];
      assert tail == [DataPrefix + p2, DoneSentinel] && tail[1..] == [DoneSentinel];
      assert ParseStream(tail[1..], decode) == Parsed([], Complete);
      assert ParseStream(tail, decode) == Parsed([Delta(Str(" there"))], Complete);
    }
    assert Joined(chunks) == Some("Hi there") by {
      var hi := [Delta(Str("Hi"))];
      assert hi[1..] == [] && Joined(hi) == Some("Hi" + "");
      JoinedSnoc(hi, Delta(Str(" there")));
      assert hi + [Delta(Str(" there"))] == chunks;
      assert "Hi" + "" + " there" == "Hi there";
    }
    NewlineFreeUnchanged("Hi there");
    StreamedReply(url, "S", "U", Response(lines, None, None), decode);
  }

  /** The default URL streams: the example above holds for it. */
  lemma HiThereAtDefaultUrl(p1: seq<Byte>, p2: seq<Byte>, decode: Decoder)
    requires p1 != [] && p1[0] == 0x7B && p2 != [] && p2[0] == 0x7B
    requires decode(p1) == Some(Delta(Str("Hi"))) && decode(p2) == Some(Delta(Str(" there")))
    ensures Reply(DefaultUrl, "S", "U", true, Response([DataPrefix + p1, DataPrefix + p2, DoneSentinel], None, None), decode)
         == Success("Hi there")
  {
    DefaultUrlIsChat();
    HiThereExample(DefaultUrl, p1, p2, decode);
  }

  // ---------------------------------------------------------------------------
  // Retry and the whole call
  // ---------------------------------------------------------------------------

  /** `stop_after_attempt(6)`. */
  const MaxAttempts: nat := 6

  /**
   * The first attempt from `tried` on (and before `MaxAttempts`) whose request
   * does not raise; `send(k)` is the outcome of attempt `k`.
   */
  function FirstSuccess<R>(send: nat -> Option<R>, tried: nat): Option<R>
    decreases MaxAttempts - tried
  {
    if tried >= MaxAttempts then None
    else if send(tried).Some? then send(tried)
    else FirstSuccess(send, tried + 1)
  }

  /**
   * `request_post_retry`: the chat request is attempted up to six times and
   * the first attempt that does not raise wins. A response with a non-2xx
   * status does not raise, so it is not retried.
   */
  method PostWithRetry<R>(send: nat -> Option<R>) returns (response: Option<R>, attempts: nat)
    ensures 1 <= attempts <= MaxAttempts
    ensures forall k :: 0 <= k < attempts - 1 ==> send(k).None?
    ensures response == send(attempts - 1)
    ensures response.None? ==> attempts == MaxAttempts
    ensures response == FirstSuccess(send, 0)
  {
    attempts := 0;
    response := None;
    while attempts < MaxAttempts
      invariant 0 <= attempts <= MaxAttempts
      invariant forall k :: 0 <= k < attempts ==> send(k).None?
      invariant FirstSuccess(send, 0) == FirstSuccess(send, attempts)
      invariant attempts > 0 ==> response == send(attempts - 1)
      invariant response.None?
    {
      response := send(attempts);
      attempts := attempts + 1;
      if response.Some? {
        return;
      }
    }
  }

  /** Five failed attempts and then a success give that success; six failures give none. */
  lemma RetryBoundExamples<R>(send: nat -> Option<R>)
    ensures (forall k :: 0 <= k < 5 ==> send(k).None?) && send(5).Some? ==> FirstSuccess(send, 0) == send(5)
    ensures (forall k :: 0 <= k < 6 ==> send(k).None?) ==> FirstSuccess(send, 0) == None
  {
    assert FirstSuccess(send, 6) == None;
    if forall k :: 0 <= k < 5 ==> send(k).None? {
      assert send(0).None? && send(1).None? && send(2).None? && send(3).None? && send(4).None?;
    }
  }

  /** What the configured backend answers, or the exception that stops the call before any reply. */
  function Fetched(mode: Mode, send: nat -> Option<Response>): Result<Response, SubmitError>
  {
    match mode
    case Generate => (match send(0) case None => Failure(TransportError) case Some(r) => Success(r))
    case Chat => (match FirstSuccess(send, 0) case None => Failure(RetriesExhausted) case Some(r) => Success(r))
  }

  /**
   * `submit_prompt`: one PUT to the generate backend, or the retried POST to
   * the chat backend, then the reply of the matching branch.
   */
  method SubmitPrompt(url: string, systemPrompt: string, userPrompt: string, useStreamlit: bool,
                      send: nat -> Option<Response>, decode: Decoder)
    returns (reply: Result<string, SubmitError>)
    ensures reply == match Fetched(SelectMode(url), send)
                     case Failure(e) => Failure(e)
                     case Success(r) => Reply(url, systemPrompt, userPrompt, useStreamlit, r, decode)
  {
    var mode := SelectMode(url);
    var response: Response;
    if mode == Generate {
      var sent := send(0);
      if sent.None? {
        return Failure(TransportError);
      }
      response := sent.value;
    } else {
      var sent, attempts := PostWithRetry(send);
      if sent.None? {
        return Failure(RetriesExhausted);
      }
      response := sent.value;
    }
    if mode == Chat && useStreamlit {
      var shown := CollectReplies(response.lines, decode);
      match shown {
        case Failure(e) =>
          reply := Failure(e);
        case Success(replies) =>
          reply := if replies == [] then Failure(NoChunks) else Success(replies[|replies| - 1]);
      }
    } else {
      reply := Reply(url, systemPrompt, userPrompt, useStreamlit, response, decode);
    }
  }

  // ---------------------------------------------------------------------------
  // The audit-log record
  // ---------------------------------------------------------------------------

  /** `"  \n".join(text.split("\n"))`: Markdown hard line breaks. */
  function HardBreaks(text: string): (r: string)
    ensures r == ReplaceEach(text, '\n', "  \n")
  {
    JoinSplitIsReplace(text, '\n', "  \n");
    Join("  \n", Split(text, '\n'))
  }

  /** Hard breaks keep the lines: the same lines, each but the last with two trailing spaces. */
  lemma HardBreaksKeepLines(text: string)
    ensures Split(HardBreaks(text), '\n') == Padded(Split(text, '\n'), "  ")
  {
    assert "  \n" == "  " + ['\n'];
    SplitJoinPadded(Split(text, '\n'), "  ", '\n');
  }

  /** One section of the record: a heading line, then the body and a newline. */
  function Section(heading: string, body: string): string
  {
    heading + "\n" + body + "\n"
  }

  /** The record appended to the audit log for one call. */
  function LogRecord(timestamp: string, systemPrompt: string, userPrompt: string, reply: string): (r: string)
    ensures |r| > |timestamp| + 3 && r[..|timestamp| + 3] == "# " + timestamp + "\n"
    ensures |r| > |reply| && r[|r| - |reply| - 1..] == reply + "\n"
  {
    Record("# " + timestamp, "## System Prompt", HardBreaks(systemPrompt),
           "## User Prompt", HardBreaks(userPrompt), "## Reply", reply)
  }

  /** A section followed by more text splits into its heading, its body's lines and the rest's lines. */
  lemma SectionLines(heading: string, body: string, rest: string)
    requires '\n' !in heading
    ensures Split(Section(heading, body) + rest, '\n') == [heading] + Split(body, '\n') + Split(rest, '\n')
  {
    var tail := body + ['\n'] + rest;
    assert Section(heading, body) + rest == heading + ['\n'] + tail;
    SplitAtSeparator(heading, '\n', tail);
    SplitAtSeparator(body, '\n', rest);
    SplitSeparatorFree(heading, '\n');
    ConcatAssoc([heading], Split(body, '\n'), Split(rest, '\n'));
  }

  /**
   * The record's lines: the timestamp heading, then each section heading
   * followed by its body's lines (the prompts with hard breaks), and the
   * empty piece after the final newline.
   */
  lemma LogRecordLines(timestamp: string, systemPrompt: string, userPrompt: string, reply: string)
    requires '\n' !in timestamp
    ensures Split(LogRecord(timestamp, systemPrompt, userPrompt, reply), '\n')
         == ["# " + timestamp, "## System Prompt"] + Padded(Split(systemPrompt, '\n'), "  ")
          + ["## User Prompt"] + Padded(Split(userPrompt, '\n'), "  ")
          + ["## Reply"] + Split(reply, '\n') + [""]
  {
    RecordLines("# " + timestamp, "## System Prompt", HardBreaks(systemPrompt),
                "## User Prompt", HardBreaks(userPrompt), "## Reply", reply);
    HardBreaksKeepLines(systemPrompt);
    HardBreaksKeepLines(userPrompt);
  }

  /** List bookkeeping for `RecordLines`, kept apart from the facts about `Split`. */
  lemma FlattenRecordLines(title: string, n1: string, l1: seq<string>, n2: string, l2: seq<string>, n3: string, l3: seq<string>)
    ensures [title] + ([n1] + l1 + ([n2] + l2 + ([n3] + l3 + [[]])))
         == [title, n1] + l1 + [n2] + l2 + [n3] + l3 + [""]
  {
  }

  /** A title line and three sections. */
  function Record(title: string, n1: string, b1: string, n2: string, b2: string, n3: string, b3: string): string
  {
    title + "\n" + Section(n1, b1) + Section(n2, b2) + Section(n3, b3)
  }

  lemma RecordLines(title: string, n1: string, b1: string, n2: string, b2: string, n3: string, b3: string)
    requires '\n' !in title && '\n' !in n1 && '\n' !in n2 && '\n' !in n3
    ensures Split(Record(title, n1, b1, n2, b2, n3, b3), '\n')
         == [title, n1] + Split(b1, '\n') + [n2] + Split(b2, '\n') + [n3] + Split(b3, '\n') + [""]
  {
    var s3 := Section(n3, b3);
    var s2 := Section(n2, b2) + s3;
    var s1 := Section(n1, b1) + s2;
    assert Record(title, n1, b1, n2, b2, n3, b3) == title + ['\n'] + s1;
    assert s3 + [] == s3;
    SplitAtSeparator(title, '\n', s1);
    SplitSeparatorFree(title, '\n');
    SectionLines(n1, b1, s2);
    SectionLines(n2, b2, s3);
    SectionLines(n3, b3, []);
    var l1, l2, l3 := Split(b1, '\n'), Split(b2, '\n'), Split(b3, '\n');
    FlattenRecordLines(title, n1, l1, n2, l2, n3, l3);
  }
}
