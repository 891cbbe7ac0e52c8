/**
  The classification oracle client: the response parser with its salvage
  search, and the bounded retry loop around the remote call. The network is
  a given sequence of attempt outcomes, json.loads is a given partial
  function, and every sleep is an emitted delay in seconds.
*/
module AICategorization {
  import opened Wrappers

  /** A decoded JSON document. */
  datatype Json =
    | JNull
    | JBool(b: bool)
    | JNum(n: real)
    | JStr(s: string)
    | JArr(items: seq<Json>)
    | JObj(fields: map<string, Json>)

  /** json.loads: a document, or None when it raises JSONDecodeError. */
  type Loads = string -> Option<Json>

  /** The empty dictionary every failure path returns. */
  const Empty: Json := JObj(map[])

  /** What _parse_response does: return a value, or let a TypeError or
      AttributeError escape to its caller. */
  datatype ParseResult = Parsed(value: Json) | Raised

  /** The outcome of one subscription `v[k]`. */
  datatype Access = Got(v: Json) | LookupFailed | TypeFailed

  /** Python truthiness. */
  predicate Truthy(v: Json) {
    match v
    case JNull => false
    case JBool(b) => b
    case JNum(n) => n != 0.0
    case JStr(s) => s != []
    case JArr(xs) => xs != []
    case JObj(m) => m != map[]
  }

  /** `t` occurs in `s` at some position. */
  predicate IsSubstring(t: string, s: string) {
    t <= s || (s != [] && IsSubstring(t, s[1..]))
  }

  /** `key in v`: key of a dict, element of a list, substring of a string;
      None for the TypeError any other value raises. */
  function Contains(v: Json, key: string): Option<bool> {
    match v
    case JObj(m) => Some(key in m)
    case JArr(xs) => Some(JStr(key) in xs)
    case JStr(s) => Some(IsSubstring(key, s))
    case _ => None
  }

  /** `v[key]` with a string key. */
  function Item(v: Json, key: string): Access {
    match v
    case JObj(m) => if key in m then Got(m[key]) else LookupFailed
    case _ => TypeFailed
  }

  /** `v[0]` */
  function First(v: Json): Access {
    match v
    case JObj(_) => LookupFailed
    case JArr(xs) => if xs != [] then Got(xs[0]) else LookupFailed
    case JStr(s) => if s != [] then Got(JStr([s[0]])) else LookupFailed
    case _ => TypeFailed
  }

  /** `choices[0]['message']['content']` */
  function ContentOf(choices: Json): Access {
    match First(choices)
    case Got(choice) =>
      (match Item(choice, "message")
       case Got(message) => Item(message, "content")
       case failed => failed)
    case failed => failed
  }

  /** The characters str.strip() removes (str.isspace). */
  predicate IsSpace(c: char) {
    || c == ' ' || '\t' <= c <= '\r' || '\U{1c}' <= c <= '\U{1f}'
    || c == '\U{85}' || c == '\U{a0}' || c == '\U{1680}'
    || '\U{2000}' <= c <= '\U{200a}' || c == '\U{2028}' || c == '\U{2029}'
    || c == '\U{202f}' || c == '\U{205f}' || c == '\U{3000}'
  }

  predicate IsBlank(s: string) {
    forall k :: 0 <= k < |s| ==> IsSpace(s[k])
  }

  predicate IsBrace(c: char) {
    c == '{' || c == '}'
  }

  /** text[i..j+1] matches the pattern \{[^{}]*\} */
  predicate IsObjectMatch(text: string, i: int, j: int) {
    && 0 <= i < j < |text|
    && text[i] == '{' && text[j] == '}'
    && forall k :: i < k < j ==> !IsBrace(text[k])
  }

  /** No match of the pattern ends before position `k`. */
  ghost predicate NoMatchEndsBefore(text: string, k: int) {
    forall i, j :: IsObjectMatch(text, i, j) ==> j >= k
  }

  /** The scan behind re.search: `open` is the position of the last brace before
      `k` when that brace is an opening one, -1 otherwise. */
  function FindObjectFrom(text: string, k: nat, open: int): (r: Option<(nat, nat)>)
    requires k <= |text|
    requires open == -1 || (0 <= open < k && text[open] == '{' && forall m :: open < m < k ==> !IsBrace(text[m]))
    requires open == -1 ==> forall i :: 0 <= i < k && text[i] == '{' ==> exists m :: i < m < k && IsBrace(text[m])
    requires NoMatchEndsBefore(text, k)
    ensures r.Some? ==> IsObjectMatch(text, r.value.0, r.value.1)
    ensures r.Some? ==> forall i, j :: IsObjectMatch(text, i, j) ==> r.value.0 <= i
    ensures r.None? ==> forall i, j :: !IsObjectMatch(text, i, j)
    decreases |text| - k
  {
    if k == |text| then None
    else if text[k] == '{' then FindObjectFrom(text, k + 1, k)
    else if text[k] == '}' then
      if open >= 0 then
        assert IsObjectMatch(text, open, k);
        assert forall i, j :: IsObjectMatch(text, i, j) ==> open <= i by {
          forall i, j | IsObjectMatch(text, i, j)
            ensures open <= i
          {
          }
        }
        Some((open, k))
      else
        assert forall i :: 0 <= i < k + 1 && text[i] == '{' ==> exists m :: i < m < k + 1 && IsBrace(text[m]) by {
          forall i | 0 <= i < k + 1 && text[i] == '{'
            ensures exists m :: i < m < k + 1 && IsBrace(text[m])
          {
            if i < k {
              var m :| i < m < k && IsBrace(text[m]);
            } else {
              assert false;
            }
          }
        }
        assert NoMatchEndsBefore(text, k + 1) by {
          forall i, j | IsObjectMatch(text, i, j)
            ensures j >= k + 1
          {
          }
        }
        FindObjectFrom(text, k + 1, -1)
    else
      assert NoMatchEndsBefore(text, k + 1);
      FindObjectFrom(text, k + 1, open)
  }

  /** re.search(r'\{[^{}]*\}', text): the leftmost match, as the positions of its braces. */
  function FindObject(text: string): (r: Option<(nat, nat)>)
    ensures r.Some? ==> IsObjectMatch(text, r.value.0, r.value.1)
    ensures r.Some? ==> forall i, j :: IsObjectMatch(text, i, j) ==> r.value.0 <= i
    ensures r.None? ==> forall i, j :: !IsObjectMatch(text, i, j)
  {
    FindObjectFrom(text, 0, -1)
  }

  /** The salvage step: decode the leftmost brace-free object in the raw text, or {}. */
  function Salvage(text: string, loads: Loads): (r: Json)
    ensures FindObject(text).None? ==> r == Empty
    ensures r != Empty ==>
      && FindObject(text).Some?
      && loads(text[FindObject(text).value.0..FindObject(text).value.1 + 1]) == Some(r)
  {
    match FindObject(text)
    case None => Empty
    case Some((i, j)) => loads(text[i..j + 1]).GetOr(Empty)
  }

  /** _parse_response */
  function ParseResponse(text: string, loads: Loads): (r: ParseResult)
    ensures loads(text).None? ==> r == Parsed(Salvage(text, loads))
    ensures r == Raised ==> loads(text).Some?
    ensures loads(text) == Some(Empty) ==> r == Parsed(Empty)
  {
    match loads(text)
    case None => Parsed(Salvage(text, loads))
    case Some(data) =>
      match Contains(data, "choices")
      case None => Raised
      case Some(false) => Parsed(Empty)
      case Some(true) =>
        match Item(data, "choices")
        case TypeFailed => Raised
        case LookupFailed => Parsed(Empty)
        case Got(choices) =>
          if !Truthy(choices) then Parsed(Empty)
          else
            match ContentOf(choices)
            case TypeFailed => Raised
            case LookupFailed => Parsed(Empty)
            case Got(content) =>
              if !content.JStr? then Raised
              else if IsBlank(content.s) then Parsed(Empty)
              else
                match loads(content.s)
                case Some(result) => Parsed(result)
                case None => Parsed(Salvage(text, loads))
  }

  /** The chat-completion envelope around a content string. */
  function Envelope(content: string): Json {
    JObj(map["choices" := JArr([JObj(map["message" := JObj(map["content" := JStr(content)])])])])
  }

  /** The happy path: an envelope whose content decodes gives exactly that document. */
  lemma EnvelopeContentIsResult(text: string, content: string, loads: Loads, v: Json)
    requires loads(text) == Some(Envelope(content))
    requires !IsBlank(content) && loads(content) == Some(v)
    ensures ParseResponse(text, loads) == Parsed(v)
  {
    var choices := JArr([JObj(map["message" := JObj(map["content" := JStr(content)])])]);
    assert Item(Envelope(content), "choices") == Got(choices);
    assert ContentOf(choices) == Got(JStr(content));
  }

  /** A decoded dictionary without choices, or with empty choices, gives {}. */
  lemma MissingChoicesGivesEmpty(text: string, loads: Loads, m: map<string, Json>)
    requires loads(text) == Some(JObj(m))
    requires "choices" !in m || !Truthy(m["choices"])
    ensures ParseResponse(text, loads) == Parsed(Empty)
  {
  }

  /** KeyError on the envelope: a first choice without "message" gives {}. */
  lemma ChoiceWithoutMessageGivesEmpty(text: string, loads: Loads, m: map<string, Json>,
                                       choice: map<string, Json>, rest: seq<Json>)
    requires loads(text) == Some(JObj(m))
    requires "choices" in m && m["choices"] == JArr([JObj(choice)] + rest)
    requires "message" !in choice
    ensures ParseResponse(text, loads) == Parsed(Empty)
  {
    assert First(m["choices"]) == Got(JObj(choice));
  }

  /** KeyError on the envelope: a message without "content" gives {}. */
  lemma MessageWithoutContentGivesEmpty(text: string, loads: Loads, m: map<string, Json>,
                                        choice: map<string, Json>, message: map<string, Json>,
                                        rest: seq<Json>)
    requires loads(text) == Some(JObj(m))
    requires "choices" in m && m["choices"] == JArr([JObj(choice)] + rest)
    requires "message" in choice && choice["message"] == JObj(message)
    requires "content" !in message
    ensures ParseResponse(text, loads) == Parsed(Empty)
  {
    assert First(m["choices"]) == Got(JObj(choice));
  }

  /** KeyError on the envelope: choices that are a non-empty object have no item 0,
      which gives {}. */
  lemma ObjectChoicesGiveEmpty(text: string, loads: Loads, m: map<string, Json>,
                               choices: map<string, Json>)
    requires loads(text) == Some(JObj(m))
    requires "choices" in m && m["choices"] == JObj(choices) && choices != map[]
    ensures ParseResponse(text, loads) == Parsed(Empty)
  {
  }

  /** Blank content gives {}. */
  lemma BlankContentGivesEmpty(text: string, content: string, loads: Loads)
    requires loads(text) == Some(Envelope(content)) && IsBlank(content)
    ensures ParseResponse(text, loads) == Parsed(Empty)
  {
    var choices := JArr([JObj(map["message" := JObj(map["content" := JStr(content)])])]);
    assert Item(Envelope(content), "choices") == Got(choices);
    assert ContentOf(choices) == Got(JStr(content));
  }

  /** An undecodable response is salvaged from its leftmost brace-free object, or gives {}. */
  lemma UndecodableResponseIsSalvaged(text: string, loads: Loads)
    requires loads(text).None?
    ensures FindObject(text).None? ==> ParseResponse(text, loads) == Parsed(Empty)
    ensures FindObject(text).Some? ==>
      var (i, j) := FindObject(text).value;
      && IsObjectMatch(text, i, j)
      && ParseResponse(text, loads) == Parsed(loads(text[i..j + 1]).GetOr(Empty))
  {
  }

  /** Undecodable content is salvaged from the whole response text, not from the content. */
  lemma UndecodableContentSalvagesResponse(text: string, content: string, loads: Loads)
    requires loads(text) == Some(Envelope(content))
    requires !IsBlank(content) && loads(content).None?
    ensures ParseResponse(text, loads) == Parsed(Salvage(text, loads))
  {
    var choices := JArr([JObj(map["message" := JObj(map["content" := JStr(content)])])]);
    assert Item(Envelope(content), "choices") == Got(choices);
    assert ContentOf(choices) == Got(JStr(content));
  }

  /** A decoded number has no `in`: the TypeError escapes the parser. */
  lemma NumberDocumentRaises(text: string, loads: Loads, n: real)
    requires loads(text) == Some(JNum(n))
    ensures ParseResponse(text, loads) == Raised
  {
  }

  const MaxRetries: nat := 3
  const RetryDelay: nat := 2
  const RateLimitDelay: nat := 5

  /** What one attempt of the request produced. */
  datatype AttemptOutcome =
    | Response(status: int, body: string)  // the status and the text read from the response
    | Timeout                              // asyncio.TimeoutError
    | PayloadError                         // aiohttp.ClientPayloadError
    | OtherError                           // any other exception

  /** What the loop does after one attempt: return a value, or sleep and go on. */
  datatype Step = Return(value: Json) | Retry(delay: nat)

  predicate IsRateLimited(o: AttemptOutcome) {
    o.Response? && o.status == 429
  }

  /** The body of the retry loop for one attempt. */
  function Decide(o: AttemptOutcome, attempt: nat, loads: Loads): (s: Step)
    requires attempt < MaxRetries
    ensures s.Retry? && attempt == MaxRetries - 1 ==> IsRateLimited(o)
    ensures s.Retry? ==> (s.delay == RateLimitDelay <==> IsRateLimited(o))
    ensures s.Retry? ==> s.delay > 0
    ensures IsRateLimited(o) ==> s == Retry(RateLimitDelay)
    ensures s.Retry? && !IsRateLimited(o) ==>
      s.delay == (if o.PayloadError? then RetryDelay * (attempt + 1) else RetryDelay)
    ensures (&& attempt < MaxRetries - 1 && !IsRateLimited(o)
             && !(o.Response? && o.status == 200 && o.body != [] && ParseResponse(o.body, loads).Parsed?))
            ==> s.Retry?
    ensures attempt == MaxRetries - 1 && !IsRateLimited(o) ==> s.Return?
    ensures o.Response? && o.status == 200 && o.body != [] && ParseResponse(o.body, loads).Parsed? ==>
      s == Return(ParseResponse(o.body, loads).value)
    ensures s.Return? && s.value != Empty ==>
      o.Response? && o.status == 200 && o.body != [] && ParseResponse(o.body, loads) == Parsed(s.value)
  {
    var last := attempt == MaxRetries - 1;
    match o
    case Response(status, body) =>
      if status == 200 then
        if body == [] then (if last then Return(Empty) else Retry(RetryDelay))
        else
          match ParseResponse(body, loads)
          case Parsed(v) => Return(v)
          case Raised => if last then Return(Empty) else Retry(RetryDelay)
      else if status == 429 then Retry(RateLimitDelay)
      else if last then Return(Empty) else Retry(RetryDelay)
    case Timeout => if last then Return(Empty) else Retry(RetryDelay)
    case PayloadError => if last then Return(Empty) else Retry(RetryDelay * (attempt + 1))
    case OtherError => if last then Return(Empty) else Retry(RetryDelay)
  }

  /** The result of a classification call: the dictionary, the sleeps in order,
      and the number of requests made. */
  datatype Classification = Classification(result: Json, delays: seq<nat>, attempts: nat)

  /** The retry loop from attempt `a` on. */
  function Run(outcome: nat -> AttemptOutcome, loads: Loads, a: nat): (c: Classification)
    requires a <= MaxRetries
    ensures a <= c.attempts <= MaxRetries
    decreases MaxRetries - a
  {
    if a == MaxRetries then Classification(Empty, [], a)
    else
      match Decide(outcome(a), a, loads)
      case Return(v) => Classification(v, [], a + 1)
      case Retry(d) =>
        var rest := Run(outcome, loads, a + 1);
        Classification(rest.result, [d] + rest.delays, rest.attempts)
  }

  /** Every request but the last is followed by a sleep; the last is too only when
      every request was made and the last was rate-limited, and then the result is {}. */
  lemma {:induction false} SleepsBetweenAttempts(outcome: nat -> AttemptOutcome, loads: Loads, a: nat)
    requires a <= MaxRetries
    ensures var c := Run(outcome, loads, a);
      || (|c.delays| == c.attempts - a - 1)
      || (|c.delays| == MaxRetries - a && c.attempts == MaxRetries && c.result == Empty
          && (a < MaxRetries ==> IsRateLimited(outcome(MaxRetries - 1))))
    decreases MaxRetries - a
  {
    if a < MaxRetries {
      SleepsBetweenAttempts(outcome, loads, a + 1);
    }
  }

  function Sum(ds: seq<nat>): nat {
    if ds == [] then 0 else ds[0] + Sum(ds[1..])
  }

  /** The loop never sleeps more than 15 seconds in total: at most one sleep per attempt,
      at most 5 seconds each (a payload error on the second attempt sleeps 4). */
  lemma {:induction false} TotalSleepAtMost(outcome: nat -> AttemptOutcome, loads: Loads, a: nat)
    requires a <= MaxRetries
    ensures Sum(Run(outcome, loads, a).delays) <= RateLimitDelay * (MaxRetries - a)
    decreases MaxRetries - a
  {
    if a < MaxRetries {
      TotalSleepAtMost(outcome, loads, a + 1);
    }
  }

  /** Payload errors on every attempt back off by 2 and then 4 seconds and give {}
      after three requests. */
  lemma PayloadErrorsBackOff(outcome: nat -> AttemptOutcome, loads: Loads)
    requires forall i :: 0 <= i < MaxRetries ==> outcome(i) == PayloadError
    ensures Run(outcome, loads, 0) == Classification(Empty, [RetryDelay, RetryDelay * 2], MaxRetries)
  {
    assert Run(outcome, loads, 2) == Classification(Empty, [], MaxRetries);
    assert Run(outcome, loads, 1) == Classification(Empty, [RetryDelay * 2], MaxRetries);
  }

  /** Failures that are not rate limits retry after 2 seconds until the last attempt,
      which gives {} without a sleep. */
  lemma TimeoutsGiveUpAfterThree(outcome: nat -> AttemptOutcome, loads: Loads)
    requires forall i :: 0 <= i < MaxRetries ==> outcome(i) == Timeout
    ensures Run(outcome, loads, 0) == Classification(Empty, [RetryDelay, RetryDelay], MaxRetries)
  {
    assert Run(outcome, loads, 2) == Classification(Empty, [], MaxRetries);
    assert Run(outcome, loads, 1) == Classification(Empty, [RetryDelay], MaxRetries);
  }

  /** The first attempt that does not retry decides the result, and no request follows it. */
  lemma {:induction false} FirstReturnWins(outcome: nat -> AttemptOutcome, loads: Loads, a: nat, k: nat, v: Json)
    requires a <= k < MaxRetries
    requires forall i :: a <= i < k ==> Decide(outcome(i), i, loads).Retry?
    requires Decide(outcome(k), k, loads) == Return(v)
    ensures Run(outcome, loads, a).result == v
    ensures Run(outcome, loads, a).attempts == k + 1
    ensures |Run(outcome, loads, a).delays| == k - a
    decreases k - a
  {
    if a < k {
      FirstReturnWins(outcome, loads, a + 1, k, v);
    }
  }

  /** A status-200 response with a non-empty body that parses is returned at once. */
  lemma SuccessfulResponseReturns(outcome: nat -> AttemptOutcome, loads: Loads, k: nat, v: Json)
    requires k < MaxRetries
    requires forall i :: 0 <= i < k ==> Decide(outcome(i), i, loads).Retry?
    requires outcome(k).Response? && outcome(k).status == 200 && outcome(k).body != []
    requires ParseResponse(outcome(k).body, loads) == Parsed(v)
    ensures Run(outcome, loads, 0).result == v && Run(outcome, loads, 0).attempts == k + 1
  {
    FirstReturnWins(outcome, loads, 0, k, v);
  }

  /** Rate-limited once, then answered: one 5-second sleep, two requests, the parsed answer. */
  lemma RateLimitedThenAnswered(body: string, loads: Loads, v: Json)
    requires body != [] && ParseResponse(body, loads) == Parsed(v)
    ensures var outcome := (i: nat) => if i == 0 then Response(429, "") else Response(200, body);
      Run(outcome, loads, 0) == Classification(v, [RateLimitDelay], 2)
  {
  }

  /** _classify_with_deepseek: at most three requests, with the sleeps between them. */
  method ClassifyWithDeepseek(outcome: nat -> AttemptOutcome, loads: Loads)
    returns (result: Json, delays: seq<nat>, attempts: nat)
    ensures Classification(result, delays, attempts) == Run(outcome, loads, 0)
  {
    delays := [];
    for attempt := 0 to MaxRetries
      invariant Run(outcome, loads, 0) ==
        var rest := Run(outcome, loads, attempt);
        Classification(rest.result, delays + rest.delays, rest.attempts)
    {
      var step := Decide(outcome(attempt), attempt, loads);
      match step
      case Return(v) =>
        return v, delays, attempt + 1;
      case Retry(d) =>
        assert delays + ([d] + Run(outcome, loads, attempt + 1).delays)
            == (delays + [d]) + Run(outcome, loads, attempt + 1).delays;
        delays := delays + [d];
    }
    assert delays + [] == delays;
    return Empty, delays, MaxRetries;
  }

  /** classify_books: no titles, no request. */
  method ClassifyBooks(titles: seq<string>, outcome: nat -> AttemptOutcome, loads: Loads)
    returns (result: Json, delays: seq<nat>, attempts: nat)
    ensures titles == [] ==> result == Empty && delays == [] && attempts == 0
    ensures titles != [] ==> Classification(result, delays, attempts) == Run(outcome, loads, 0)
  {
    if titles == [] {
      return Empty, [], 0;
    }
    result, delays, attempts := ClassifyWithDeepseek(outcome, loads);
  }
}
