/** Requests, responses and plain greedy decoding, with and without cached key and value rows. */
module Generation {
  import opened PyData
  import opened Utf8
  import opened Softmax
  import opened Transformer
  import opened CachedDecoding
  import opened GenerationContract
  import SequentialCopy

  datatype Failure = PromptTooLong | ContextExceeded | NonFinite | InvalidResponse

  datatype Outcome<+T> = Returned(value: T) | Raised(failure: Failure)

  /** Building a response raises when it breaks its schema. */
  function Checked(r: Response): Outcome<Response> {
    if ResponseOk(r) then Returned(r) else Raised(InvalidResponse)
  }

  /** The most likely byte after `tokens`; `None` stands for the error of a logit that is not a number. */
  function NextByte(net: Net, finite: Row -> bool, tokens: seq<Byte>): Option<Byte>
    requires Usable(net) && tokens != [] && |Logits(net, tokens)| == 256
  {
    var values := Logits(net, tokens);
    if finite(values) then Some(Argmax(values, 256)) else None
  }

  /** `next` names the network's greedy choice after a token list; `finite` tests that all logits are numbers. */
  datatype Backend = Backend(net: Net, next: seq<Byte> -> Option<Byte>, modelId: string, promptBytes: nat,
                             finite: Row -> bool)

  /** Marks the token lists whose greedy choice is looked up in the network. */
  predicate Asked(tokens: seq<Byte>) {
    true
  }

  /** The network scores all 256 bytes, and `next` is its greedy choice. */
  ghost predicate Ready(b: Backend) {
    && Usable(b.net)
    && (forall x :: |b.net.readout(x)| == 256)
    && (forall tokens {:trigger Asked(tokens)} ::
          Asked(tokens) && tokens != [] ==> b.next(tokens) == NextByte(b.net, b.finite, tokens))
  }

  // ----- The prompt -----

  const SYSTEM: string := "[SYSTEM]: Kontekst poprzednich modyfikacji dla tego pliku:\n"

  function Spaces(n: nat): Text {
    seq(n, _ => 32)
  }

  function Body(payload: Request): Text {
    (if payload.context != [] then Ascii(SYSTEM) + payload.context + Ascii("\n\n") else [])
    + Ascii("[USER]: ") + payload.prompt + Ascii("\n")
  }

  /** `format_prompt`; `None` stands for the ValueError of a prompt past its fixed boundary. */
  function FormatPrompt(payload: Request, promptBytes: nat): Option<Text> {
    var text := Body(payload);
    if promptBytes == 0 then Some(text + Ascii("[AI]:\n")) else
      var used := |Encode(text + Ascii("[AI]:\n"))|;
      if promptBytes < used then None
      else Some(text + Spaces(promptBytes - used) + Ascii("[AI]:\n"))
  }

  /** A padded prompt is exactly `promptBytes` bytes long, whatever characters it contains. */
  lemma PaddedPromptLength(payload: Request, promptBytes: nat)
    requires promptBytes > 0 && FormatPrompt(payload, promptBytes).Some?
    ensures |Encode(FormatPrompt(payload, promptBytes).value)| == promptBytes
  {
    var text, close := Body(payload), Ascii("[AI]:\n");
    var pad := Spaces(promptBytes - |Encode(text + close)|);
    EncodeConcat(text, close);
    EncodeConcat(text + pad, close);
    EncodeConcat(text, pad);
    EncodeAscii(pad);
  }

  // ----- Greedy decoding -----

  datatype Decoded = Decoded(output: seq<Byte>, count: nat, finish: Finish)

  /** Appends the most likely byte until it is 0 or `left` bytes have been produced. */
  function Greedy(b: Backend, tokens: seq<Byte>, d: Decoded, left: nat): Outcome<Decoded>
    decreases left
  {
    if left == 0 then Returned(d) else
      match b.next(tokens)
      case None => Raised(NonFinite)
      case Some(token) =>
        if token == 0 then Returned(Decoded(d.output, d.count + 1, Eos))
        else Greedy(b, tokens + [token], Decoded(d.output + [token], d.count + 1, d.finish), left - 1)
  }

  /** The response that greedy decoding arrives at, before its schema is checked. */
  function GreedyDraft(b: Backend, payload: Request): Outcome<Response>
  {
    var text := FormatPrompt(payload, b.promptBytes);
    if text.None? then Raised(PromptTooLong) else
      var tokens := Encode(text.value + payload.assistantPrefix);
      if |tokens| > b.net.context then Raised(ContextExceeded) else
        PromptNotEmpty(payload, b.promptBytes);
        match Greedy(b, tokens, Decoded(Encode(payload.assistantPrefix), 0, Length), payload.maxNewTokens)
        case Raised(f) => Raised(f)
        case Returned(d) => Returned(Response(b.modelId, Decode(d.output), d.count, d.finish))
  }

  /** What `DenseLocalBackend.generate` answers in greedy mode. */
  function PlainGreedy(b: Backend, payload: Request): Outcome<Response> {
    match GreedyDraft(b, payload)
    case Raised(f) => Raised(f)
    case Returned(r) => Checked(r)
  }

  lemma PromptNotEmpty(payload: Request, promptBytes: nat)
    requires FormatPrompt(payload, promptBytes).Some?
    ensures Encode(FormatPrompt(payload, promptBytes).value + payload.assistantPrefix) != []
  {
  }

  /** Scores, checks and chooses with a full forward pass. */
  method FullNextByte(b: Backend, tokens: seq<Byte>) returns (next: Option<Byte>)
    requires Ready(b) && tokens != []
    ensures next == b.next(tokens)
  {
    assert Asked(tokens);
    var values := NumpyLogits(b.net, tokens);
    next := if b.finite(values) then Some(Argmax(values, 256)) else None;
  }

  /** The decoding loop of `DenseLocalBackend.generate`: a full forward pass for every byte. */
  method GreedyLoop(b: Backend, prompt: seq<Byte>, prefix: seq<Byte>, budget: nat) returns (r: Outcome<Decoded>)
    requires Ready(b) && prompt != []
    ensures r == Greedy(b, prompt, Decoded(prefix, 0, Length), budget)
  {
    var tokens, output := prompt, prefix;
    var reason, count := Length, 0;
    for step := 0 to budget
      invariant tokens != [] && reason == Length
      invariant Greedy(b, prompt, Decoded(prefix, 0, Length), budget) ==
                Greedy(b, tokens, Decoded(output, count, reason), budget - step)
    {
      var next := FullNextByte(b, tokens);
      if next.None? {
        return Raised(NonFinite);
      }
      var token := next.value;
      count := count + 1;
      if token == 0 {
        reason := Eos;
        return Returned(Decoded(output, count, reason));
      }
      output := output + [token];
      tokens := tokens + [token];
    }
    r := Returned(Decoded(output, count, reason));
  }

  method DenseGenerate(b: Backend, payload: Request) returns (r: Outcome<Response>)
    requires Ready(b)
    ensures r == PlainGreedy(b, payload)
  {
    var text := FormatPrompt(payload, b.promptBytes);
    if text.None? {
      return Raised(PromptTooLong);
    }
    var tokens := Encode(text.value + payload.assistantPrefix);
    if |tokens| > b.net.context {
      return Raised(ContextExceeded);
    }
    PromptNotEmpty(payload, b.promptBytes);
    var decoded := GreedyLoop(b, tokens, Encode(payload.assistantPrefix), payload.maxNewTokens);
    match decoded
    case Raised(f) => r := Raised(f);
    case Returned(d) => r := Checked(Response(b.modelId, Decode(d.output), d.count, d.finish));
  }

  /** One round of `legacy_function`: score, check, choose, and move the caches one token on. */
  method CachedNextByte(b: Backend, logits: CachedLogits, tokens: seq<Byte>) returns (next: Option<Byte>)
    requires Ready(b) && logits.Valid() && logits.w == b.net && tokens != []
    modifies logits
    ensures logits.Valid() && next == b.next(tokens)
  {
    assert Asked(tokens);
    var values := logits.Call(tokens);
    if !b.finite(values) {
      return None;
    }
    var token: Byte := Argmax(values, 256);
    logits.NextDepth();
    next := Some(token);
  }

  /** The decoding loop of `legacy_function`: one cached row for every byte, the same bytes as the full passes. */
  method CachedGreedyLoop(b: Backend, prompt: seq<Byte>, prefix: seq<Byte>, budget: nat) returns (r: Outcome<Decoded>)
    requires Ready(b) && prompt != []
    ensures r == Greedy(b, prompt, Decoded(prefix, 0, Length), budget)
  {
    var tokens, output := prompt, prefix;
    ghost var whole := Greedy(b, prompt, Decoded(prefix, 0, Length), budget);
    var logits := new CachedLogits(b.net);
    for count := 1 to budget + 1
      invariant tokens != [] && logits.Valid() && logits.w == b.net && fresh(logits)
      invariant whole == Greedy(b, tokens, Decoded(output, count - 1, Length), budget + 1 - count)
    {
      var next := CachedNextByte(b, logits, tokens);
      if next.None? {
        return Raised(NonFinite);
      }
      var token := next.value;
      if token == 0 {
        return Returned(Decoded(output, count, Eos));
      }
      output := output + [token];
      tokens := tokens + [token];
    }
    r := Returned(Decoded(output, budget, Length));
  }

  /** What `legacy_function` answers: the greedy draft without a prompt boundary, if it ends on a kept text. */
  function LegacyAnswer(b: Backend, payload: Request, declared: bool, keep: Text -> bool): Outcome<Option<Response>> {
    if !declared then Returned(None) else
      match GreedyDraft(b.(promptBytes := 0), payload)
      case Raised(f) => Raised(f)
      case Returned(plain) =>
        if !(plain.finish == Eos && keep(plain.output)) then Returned(None)
        else if ResponseOk(plain) then Returned(Some(plain))
        else Raised(InvalidResponse)
  }

  /** `legacy_function`; `declared` says whether a declaration is known, and `keep` is its structural test. */
  method LegacyFunction(b: Backend, payload: Request, declared: bool, keep: Text -> bool)
    returns (r: Outcome<Option<Response>>)
    requires Ready(b)
    ensures r == LegacyAnswer(b, payload, declared, keep)
  {
    if !declared {
      return Returned(None);
    }
    var tokens := Encode(FormatPrompt(payload, 0).value + payload.assistantPrefix);
    if |tokens| > b.net.context {
      return Raised(ContextExceeded);
    }
    PromptNotEmpty(payload, 0);
    var prefix := Encode(payload.assistantPrefix);
    var decoded := CachedGreedyLoop(b, tokens, prefix, payload.maxNewTokens);
    GreedyIgnoresBoundary(b, tokens, Decoded(prefix, 0, Length), payload.maxNewTokens);
    match decoded
    case Raised(f) => r := Raised(f);
    case Returned(d) =>
      var code := Decode(d.output);
      if d.finish == Eos && keep(code) {
        var response := Response(b.modelId, code, d.count, Eos);
        r := if ResponseOk(response) then Returned(Some(response)) else Raised(InvalidResponse);
      } else {
        r := Returned(None);
      }
  }

  lemma {:induction false} GreedyIgnoresBoundary(b: Backend, tokens: seq<Byte>, d: Decoded, left: nat)
    ensures Greedy(b.(promptBytes := 0), tokens, d, left) == Greedy(b, tokens, d, left)
    decreases left
  {
    if left > 0 && b.next(tokens).Some? {
      var token := b.next(tokens).value;
      GreedyIgnoresBoundary(b, tokens + [token], Decoded(d.output + [token], d.count + 1, d.finish), left - 1);
    }
  }

  // ----- What greedy decoding decodes -----

  /** The logits after `tokens` are numbers, and `token` is the first position of the largest. */
  ghost predicate Chooses(b: Backend, tokens: seq<Byte>, token: Byte)
    requires Usable(b.net) && tokens != []
  {
    var values := Logits(b.net, tokens);
    && b.finite(values) && token < |values|
    && (forall j :: 0 <= j < |values| ==> values[j] <= values[token])
    && forall j :: 0 <= j < token ==> values[j] < values[token]
  }

  lemma NextIsChosen(b: Backend, tokens: seq<Byte>, token: Byte)
    requires Ready(b) && tokens != []
    ensures b.next(tokens) == Some(token) <==> Chooses(b, tokens, token)
  {
    assert Asked(tokens);
    var best := Argmax(Logits(b.net, tokens), 256);
    assert Chooses(b, tokens, token) ==> !(best < token) && !(token < best);
  }

  /** Each byte is the first maximum after everything before it, none is zero, and the end byte follows if `ended`. */
  ghost predicate ChosenRun(b: Backend, tokens: seq<Byte>, bytes: seq<Byte>, ended: bool)
    requires Usable(b.net) && tokens != []
    decreases |bytes|
  {
    if bytes == [] then ended ==> Chooses(b, tokens, 0)
    else bytes[0] != 0 && Chooses(b, tokens, bytes[0]) && ChosenRun(b, tokens + [bytes[0]], bytes[1..], ended)
  }

  /** The result that appends `bytes`, and ends if `ended`. */
  function Appended(d: Decoded, bytes: seq<Byte>, ended: bool): Decoded {
    Decoded(d.output + bytes, d.count + |bytes| + (if ended then 1 else 0), if ended then Eos else d.finish)
  }

  /** The budget is used up, or there is some left for the end byte. */
  predicate InBudget(bytes: seq<Byte>, ended: bool, left: nat) {
    if ended then |bytes| < left else |bytes| == left
  }

  lemma AppendedOne(d: Decoded, token: Byte, bytes: seq<Byte>, ended: bool)
    ensures Appended(Decoded(d.output + [token], d.count + 1, d.finish), bytes, ended) == Appended(d, [token] + bytes, ended)
  {
    assert (d.output + [token]) + bytes == d.output + ([token] + bytes);
  }

  /** A byte that is not the end byte is appended, and decoding goes on. */
  lemma GreedyStep(b: Backend, tokens: seq<Byte>, d: Decoded, left: nat, token: Byte)
    requires left > 0 && b.next(tokens) == Some(token)
    ensures Greedy(b, tokens, d, left) ==
            if token == 0 then Returned(Appended(d, [], true))
            else Greedy(b, tokens + [token], Decoded(d.output + [token], d.count + 1, d.finish), left - 1)
  {
    assert d.output + [] == d.output;
  }

  lemma ChosenCons(b: Backend, tokens: seq<Byte>, token: Byte, rest: seq<Byte>, ended: bool)
    requires Usable(b.net) && tokens != [] && token != 0 && Chooses(b, tokens, token)
    requires ChosenRun(b, tokens + [token], rest, ended)
    ensures ChosenRun(b, tokens, [token] + rest, ended)
  {
    assert ([token] + rest)[1..] == rest;
  }

  lemma {:induction false} GreedyChooses(b: Backend, tokens: seq<Byte>, d: Decoded, left: nat) returns (bytes: seq<Byte>, ended: bool)
    requires Ready(b) && tokens != [] && Greedy(b, tokens, d, left).Returned?
    ensures Greedy(b, tokens, d, left) == Returned(Appended(d, bytes, ended))
    ensures ChosenRun(b, tokens, bytes, ended) && InBudget(bytes, ended, left)
    decreases left
  {
    if left == 0 {
      bytes, ended := [], false;
      assert d.output + [] == d.output;
    } else {
      var token := b.next(tokens).value;
      GreedyStep(b, tokens, d, left, token);
      NextIsChosen(b, tokens, token);
      if token == 0 {
        bytes, ended := [], true;
      } else {
        var rest;
        rest, ended := GreedyChooses(b, tokens + [token], Decoded(d.output + [token], d.count + 1, d.finish), left - 1);
        AppendedOne(d, token, rest, ended);
        ChosenCons(b, tokens, token, rest, ended);
        bytes := [token] + rest;
      }
    }
  }

  lemma {:induction false} ChosenIsGreedy(b: Backend, tokens: seq<Byte>, d: Decoded, left: nat, bytes: seq<Byte>, ended: bool)
    requires Ready(b) && tokens != [] && ChosenRun(b, tokens, bytes, ended) && InBudget(bytes, ended, left)
    ensures Greedy(b, tokens, d, left) == Returned(Appended(d, bytes, ended))
    decreases left
  {
    if bytes == [] {
      assert d.output + [] == d.output;
      if ended {
        NextIsChosen(b, tokens, 0);
        GreedyStep(b, tokens, d, left, 0);
      }
    } else {
      var token := bytes[0];
      NextIsChosen(b, tokens, token);
      GreedyStep(b, tokens, d, left, token);
      ChosenIsGreedy(b, tokens + [token], Decoded(d.output + [token], d.count + 1, d.finish), left - 1, bytes[1..], ended);
      AppendedOne(d, token, bytes[1..], ended);
      assert bytes == [token] + bytes[1..];
    }
  }

  /** Greedy decoding appends bytes exactly when they are chosen one by one, up to the end byte or the budget. */
  lemma GreedyIff(b: Backend, tokens: seq<Byte>, prefix: seq<Byte>, budget: nat, bytes: seq<Byte>, ended: bool)
    requires Ready(b) && tokens != []
    ensures Greedy(b, tokens, Decoded(prefix, 0, Length), budget) == Returned(Appended(Decoded(prefix, 0, Length), bytes, ended))
            <==> ChosenRun(b, tokens, bytes, ended) && InBudget(bytes, ended, budget)
  {
    var d := Decoded(prefix, 0, Length);
    if Greedy(b, tokens, d, budget) == Returned(Appended(d, bytes, ended)) {
      var bytes', ended' := GreedyChooses(b, tokens, d, budget);
      assert bytes == (prefix + bytes)[|prefix|..] && bytes' == (prefix + bytes')[|prefix|..];
    }
    if ChosenRun(b, tokens, bytes, ended) && InBudget(bytes, ended, budget) {
      ChosenIsGreedy(b, tokens, d, budget, bytes, ended);
    }
  }

  // ----- Requests within the protocol's limits -----

  /**
   * A request within its limits never makes a response too long: its text has at most `maxNewTokens` characters
   * more than the prefix, and only the model's name can be at fault.
   */
  lemma DraftFits(b: Backend, payload: Request)
    requires Ready(b) && RequestOk(payload) && GreedyDraft(b, payload).Returned?
    ensures ResponseOk(GreedyDraft(b, payload).value) <==> 1 <= |b.modelId| <= 128
    ensures |GreedyDraft(b, payload).value.output| <= |payload.assistantPrefix| + payload.maxNewTokens <= 1536
  {
    var text := FormatPrompt(payload, b.promptBytes).value;
    PromptNotEmpty(payload, b.promptBytes);
    var prefix := Encode(payload.assistantPrefix);
    var bytes, ended := GreedyChooses(b, Encode(text + payload.assistantPrefix), Decoded(prefix, 0, Length), payload.maxNewTokens);
    DecodeEncodedPrefix(payload.assistantPrefix, bytes);
    DecodedLength(bytes);
  }

  /**
   * On requests within the limits, `legacy_function` answers exactly when plain greedy decoding without a prompt
   * boundary ends on a kept text, then with the same response, and raises exactly when plain decoding does.
   */
  lemma LegacyIsPlain(b: Backend, payload: Request, keep: Text -> bool)
    requires Ready(b) && RequestOk(payload) && 1 <= |b.modelId| <= 128
    ensures LegacyAnswer(b, payload, true, keep) ==
              match PlainGreedy(b.(promptBytes := 0), payload)
              case Raised(f) => Raised(f)
              case Returned(plain) => Returned(if plain.finish == Eos && keep(plain.output) then Some(plain) else None)
  {
    if GreedyDraft(b.(promptBytes := 0), payload).Returned? {
      assert Ready(b.(promptBytes := 0));
      DraftFits(b.(promptBytes := 0), payload);
    }
  }

  // ----- What the prompt says -----

  lemma UserMark()
    ensures Ascii("[USER]: ") == SequentialCopy.USER
  {
  }

  lemma ClosingMark()
    ensures Ascii("\n") + Ascii("[AI]:\n") == SequentialCopy.AI
  {
  }

  lemma PlainText(user: Text, prompt: Text, line: Text, close: Text)
    ensures (user + prompt + line) + close == (user + prompt) + (line + close)
  {
  }

  lemma PlainPrompt(prompt: Text, prefix: Text, budget: nat)
    ensures FormatPrompt(Request(prompt, [], prefix, budget), 0)
         == Some((Ascii("[USER]: ") + prompt) + (Ascii("\n") + Ascii("[AI]:\n")))
  {
    assert [] + Ascii("[USER]: ") == Ascii("[USER]: ");
    PlainText(Ascii("[USER]: "), prompt, Ascii("\n"), Ascii("[AI]:\n"));
  }

  lemma EncodeFramed(user: seq<Byte>, prompt: Text, close: seq<Byte>)
    requires (forall i :: 0 <= i < |user| ==> user[i] < 0x80) && forall i :: 0 <= i < |close| ==> close[i] < 0x80
    ensures Encode((user + prompt) + close) == user + Encode(prompt) + close
  {
    EncodeAscii(user);
    EncodeAscii(close);
    EncodeConcat(user, prompt);
    EncodeConcat(user + prompt, close);
  }

  /** Without a context the prompt's bytes are the frame that sequential copying reads. */
  lemma PlainPromptIsFrame(prompt: Text, prefix: Text, budget: nat, context: nat, steps: nat)
    ensures FormatPrompt(Request(prompt, [], prefix, budget), 0).Some?
    ensures Encode(FormatPrompt(Request(prompt, [], prefix, budget), 0).value)
         == SequentialCopy.Frame(SequentialCopy.Job(Encode(prompt), context, steps))
  {
    PlainPrompt(prompt, prefix, budget);
    UserMark();
    ClosingMark();
    EncodeFramed(SequentialCopy.USER, prompt, SequentialCopy.AI);
  }

  /** A context stands in front of the text that there would be without it. */
  lemma ContextStandsInFront(payload: Request)
    requires payload.context != []
    ensures FormatPrompt(payload, 0).Some? && FormatPrompt(payload.(context := []), 0).Some?
    ensures FormatPrompt(payload, 0).value ==
            Ascii("[SYSTEM]: Kontekst poprzednich modyfikacji dla tego pliku:\n") + payload.context + Ascii("\n\n")
            + FormatPrompt(payload.(context := []), 0).value
  {
  }

  /**
   * With a boundary, spaces stand before the closing line of the text that there would be without it; it is refused
   * exactly when that text is longer than the boundary.
   */
  lemma PaddingIsSpaces(payload: Request, promptBytes: nat) returns (n: nat)
    requires promptBytes > 0
    ensures FormatPrompt(payload, 0).Some?
    ensures var plain := FormatPrompt(payload, 0).value;
            && |plain| >= 6 && plain[|plain| - 6..] == Ascii("[AI]:\n")
            && (FormatPrompt(payload, promptBytes).None? <==> |Encode(plain)| > promptBytes)
            && (FormatPrompt(payload, promptBytes).Some? ==>
                  FormatPrompt(payload, promptBytes).value == plain[..|plain| - 6] + seq(n, _ => 32) + Ascii("[AI]:\n"))
  {
    var plain := FormatPrompt(payload, 0).value;
    assert plain[..|plain| - 6] == Body(payload);
    n := if promptBytes < |Encode(plain)| then 0 else promptBytes - |Encode(plain)|;
  }

  // ----- What plain generation answers -----

  /** The answer that appends `bytes` to the prefix, ended or not. */
  function AnswerOf(b: Backend, payload: Request, bytes: seq<Byte>, ended: bool): Response {
    Response(b.modelId, payload.assistantPrefix + Decode(bytes), |bytes| + (if ended then 1 else 0), if ended then Eos else Length)
  }

  /** The bytes are what the network chooses, one by one, after the prompt's text and the prefix. */
  ghost predicate ChosenAfter(b: Backend, payload: Request, bytes: seq<Byte>, ended: bool)
    requires Ready(b) && FormatPrompt(payload, b.promptBytes).Some?
  {
    PromptNotEmpty(payload, b.promptBytes);
    EncodeConcat(FormatPrompt(payload, b.promptBytes).value, payload.assistantPrefix);
    && ChosenRun(b, Encode(FormatPrompt(payload, b.promptBytes).value) + Encode(payload.assistantPrefix), bytes, ended)
    && InBudget(bytes, ended, payload.maxNewTokens)
  }

  /** The text and the prefix fit the context. */
  predicate PromptFits(b: Backend, payload: Request) {
    && FormatPrompt(payload, b.promptBytes).Some?
    && |Encode(FormatPrompt(payload, b.promptBytes).value)| + |Encode(payload.assistantPrefix)| <= b.net.context
  }

  lemma DraftIsAnswer(b: Backend, payload: Request, bytes: seq<Byte>, ended: bool)
    requires Ready(b) && PromptFits(b, payload) && ChosenAfter(b, payload, bytes, ended)
    ensures GreedyDraft(b, payload) == Returned(AnswerOf(b, payload, bytes, ended))
  {
    var text, prefix := FormatPrompt(payload, b.promptBytes).value, Encode(payload.assistantPrefix);
    PromptNotEmpty(payload, b.promptBytes);
    EncodeConcat(text, payload.assistantPrefix);
    GreedyIff(b, Encode(text) + prefix, prefix, payload.maxNewTokens, bytes, ended);
    DecodeEncodedPrefix(payload.assistantPrefix, bytes);
  }

  lemma DraftChooses(b: Backend, payload: Request) returns (bytes: seq<Byte>, ended: bool)
    requires Ready(b) && GreedyDraft(b, payload).Returned?
    ensures PromptFits(b, payload) && ChosenAfter(b, payload, bytes, ended)
  {
    var text, prefix := FormatPrompt(payload, b.promptBytes).value, Encode(payload.assistantPrefix);
    PromptNotEmpty(payload, b.promptBytes);
    EncodeConcat(text, payload.assistantPrefix);
    bytes, ended := GreedyChooses(b, Encode(text) + prefix, Decoded(prefix, 0, Length), payload.maxNewTokens);
  }

  /**
   * Plain generation answers with `r` exactly when the text and the prefix fit the context and `r`, within its limits,
   * is the prefix followed by the text of the bytes that the network chooses after both.
   */
  lemma PlainAnswerIff(b: Backend, payload: Request, r: Response)
    requires Ready(b)
    ensures PlainGreedy(b, payload) == Returned(r) <==>
            && PromptFits(b, payload) && ResponseOk(r)
            && exists bytes, ended :: ChosenAfter(b, payload, bytes, ended) && r == AnswerOf(b, payload, bytes, ended)
  {
    if PlainGreedy(b, payload) == Returned(r) {
      var bytes, ended := DraftChooses(b, payload);
      DraftIsAnswer(b, payload, bytes, ended);
    }
    if PromptFits(b, payload) && ResponseOk(r) {
      if bytes, ended :| ChosenAfter(b, payload, bytes, ended) && r == AnswerOf(b, payload, bytes, ended) {
        DraftIsAnswer(b, payload, bytes, ended);
      }
    }
  }
}
