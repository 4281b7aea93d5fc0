/** How `forward_request` tells the replies of a provider apart, and the signature under which it counts
    errors. */
module Replies {
  import opened Common
  import opened Json
  import Numerals

  /** What comes back from a provider: nothing readable, or a status, a text and, if the text is JSON, its value. */
  datatype Raw = Unreachable | Body(status: nat, text: string, json: Option<Value>)

  datatype Reply =
    | RateLimited
    | UserError(response: Value)
    | ProviderError(signature: nat, response: Value)
    | Success(response: Value)
    | BadJson
    | NetworkFailure

  /** What the hasher of error signatures is fed. */
  datatype ErrorToken = TCode(code: int) | TText(text: string) | TFlag(flag: bool)

  /** The lower-casing of texts, the two pattern tables on lower-case texts, and the hash. */
  datatype Tables = Tables(
    lower: string -> string,
    rateLimit: string -> bool,
    userError: string -> bool,
    hash: seq<ErrorToken> -> nat)

  // ---------------------------------------------------------------- members of an error

  const I64_BOUND: nat := 0x8000_0000_0000_0000

  /** `as_i64`: integers are printed without a point or an exponent. */
  function AsInt(v: Option<Value>): Option<int> {
    if v.None? || !v.value.JNumber? then None
    else
      var text := v.value.text;
      var negative := text != [] && text[0] == '-';
      var digits := if negative then text[1..] else text;
      if digits == [] || !Numerals.AllDigits(digits, 10) then None
      else
        var n: int := Numerals.Value(digits, 10);
        if negative then (if n <= I64_BOUND then Some(-n) else None)
        else if n < I64_BOUND then Some(n) else None
  }

  function CodeOf(error: Value): Option<int> {
    AsInt(Get(error, "code"))
  }

  function MessageOf(t: Tables, error: Value): Option<string> {
    var m := AsStr(Get(error, "message"));
    if m.Some? then Some(t.lower(m.value)) else None
  }

  /** The error's data, if it is simple; a number counts as its text. */
  function DataOf(error: Value): Option<ErrorToken> {
    match Get(error, "data")
    case Some(JString(s)) => Some(TText(s))
    case Some(JNumber(n)) => Some(TText(n))
    case Some(JBool(b)) => Some(TFlag(b))
    case _ => None
  }

  // ---------------------------------------------------------------- classification

  const RATE_LIMIT_CODES: set<int> := {429, -32005, -32098, -32099}
  const USER_ERROR_CODES: set<int> := {-32600, -32601, -32602, -32700}

  predicate HasCodeIn(error: Value, codes: set<int>) {
    CodeOf(error).Some? && CodeOf(error).value in codes
  }

  predicate HasMessage(t: Tables, error: Value, pattern: string -> bool) {
    MessageOf(t, error).Some? && pattern(MessageOf(t, error).value)
  }

  predicate IsRateLimit(t: Tables, status: nat, text: string, json: Option<Value>) {
    || status == 429 || status == 503
    || t.rateLimit(t.lower(text))
    || (json.Some? && Get(json.value, "error").Some?
        && var error := Get(json.value, "error").value;
           HasMessage(t, error, t.rateLimit) || HasCodeIn(error, RATE_LIMIT_CODES))
  }

  predicate IsUserError(t: Tables, error: Value) {
    HasCodeIn(error, USER_ERROR_CODES) || HasMessage(t, error, t.userError)
  }

  function ErrorStream(t: Tables, error: Value): seq<ErrorToken> {
    var code, message, data := CodeOf(error), MessageOf(t, error), DataOf(error);
    (if code.Some? then [TCode(code.value)] else [])
    + (if message.Some? then [TText(message.value)] else [])
    + (if data.Some? then [data.value] else [])
  }

  function Classify(t: Tables, raw: Raw): Reply {
    if raw.Unreachable? then NetworkFailure
    else if IsRateLimit(t, raw.status, raw.text, raw.json) then RateLimited
    else
      match raw.json
      case None => BadJson
      case Some(response) =>
        match Get(response, "error")
        case None => Success(response)
        case Some(error) =>
          if IsUserError(t, error) then UserError(response)
          else ProviderError(t.hash(ErrorStream(t, error)), response)
  }

  // ---------------------------------------------------------------- what a reply means

  /** How `{}` prints an integer. */
  function Decimal(n: int): string {
    if n < 0 then "-" + Numerals.Print(-n, 10) else Numerals.Print(n, 10)
  }

  /** A code counts if it is a number printed like an integer of 64 bits. */
  lemma AsIntReads(n: int)
    ensures AsInt(Some(JNumber(Decimal(n)))) ==
            if -0x8000_0000_0000_0000 <= n < 0x8000_0000_0000_0000 then Some(n) else None
  {
    if n < 0 {
      NegativeReads(n);
    } else {
      PositiveReads(n);
    }
  }

  lemma PositiveReads(n: nat)
    ensures AsInt(Some(JNumber(Numerals.Print(n, 10)))) == if n < I64_BOUND then Some(n) else None
  {
    var digits := Numerals.Print(n, 10);
    Numerals.ValuePrint(n, 10);
    assert Numerals.DigitValue(digits[0]) < 10;
  }

  lemma NegativeReads(n: int)
    requires n < 0
    ensures AsInt(Some(JNumber("-" + Numerals.Print(-n, 10)))) == if -n <= I64_BOUND then Some(n) else None
  {
    Numerals.ValuePrint(-n, 10);
    DigitsAfterSign(Numerals.Print(-n, 10), n);
  }

  lemma DigitsAfterSign(digits: string, n: int)
    requires digits != [] && Numerals.AllDigits(digits, 10) && Numerals.Value(digits, 10) == -n
    ensures AsInt(Some(JNumber("-" + digits))) == if -n <= I64_BOUND then Some(n) else None
  {
    assert ("-" + digits)[1..] == digits;
  }

  /** The error's code is this number. */
  predicate CodeIs(error: Value, n: int) {
    Get(error, "code") == Some(JNumber(Decimal(n)))
  }

  /** The error's message, in lower case, matches the pattern. */
  predicate MessageMatches(t: Tables, error: Value, pattern: string -> bool) {
    match Get(error, "message")
    case Some(JString(message)) => pattern(t.lower(message))
    case _ => false
  }

  predicate HasError(raw: Raw, error: Value) {
    raw.Body? && raw.json.Some? && Get(raw.json.value, "error") == Some(error)
  }

  /** By its status, its text, or its error, the reply says that there were too many requests. */
  ghost predicate IsRefusal(t: Tables, raw: Raw) {
    raw.Body? &&
    (|| raw.status == 429 || raw.status == 503
     || t.rateLimit(t.lower(raw.text))
     || exists error :: HasError(raw, error) &&
          (|| MessageMatches(t, error, t.rateLimit)
           || CodeIs(error, 429) || CodeIs(error, -32005) || CodeIs(error, -32098) || CodeIs(error, -32099)))
  }

  /** The error is the caller's. */
  predicate IsCallersFault(t: Tables, error: Value) {
    || CodeIs(error, -32600) || CodeIs(error, -32601) || CodeIs(error, -32602) || CodeIs(error, -32700)
    || MessageMatches(t, error, t.userError)
  }

  /** The numbers of an error's code are printed as integers are, if they are integers at all. */
  predicate CanonicalCode(error: Value) {
    match CodeOf(error)
    case Some(n) => CodeIs(error, n)
    case None => true
  }

  ghost predicate CanonicalCodes(raw: Raw) {
    forall error :: HasError(raw, error) ==> CanonicalCode(error)
  }

  lemma CodeIn(error: Value, n: int)
    requires CanonicalCode(error) && -0x8000_0000_0000_0000 <= n < 0x8000_0000_0000_0000
    ensures CodeOf(error) == Some(n) <==> CodeIs(error, n)
  {
    AsIntReads(n);
  }

  lemma RateLimitCodes(error: Value)
    requires CanonicalCode(error)
    ensures HasCodeIn(error, RATE_LIMIT_CODES) <==>
            CodeIs(error, 429) || CodeIs(error, -32005) || CodeIs(error, -32098) || CodeIs(error, -32099)
  {
    CodeIn(error, 429);
    CodeIn(error, -32005);
    CodeIn(error, -32098);
    CodeIn(error, -32099);
  }

  lemma UserErrorCodes(error: Value)
    requires CanonicalCode(error)
    ensures HasCodeIn(error, USER_ERROR_CODES) <==>
            CodeIs(error, -32600) || CodeIs(error, -32601) || CodeIs(error, -32602) || CodeIs(error, -32700)
  {
    CodeIn(error, -32600);
    CodeIn(error, -32601);
    CodeIn(error, -32602);
    CodeIn(error, -32700);
  }

  lemma RefusalExactly(t: Tables, raw: Raw)
    requires CanonicalCodes(raw)
    ensures Classify(t, raw).RateLimited? <==> IsRefusal(t, raw)
  {
    if raw.Body? && raw.json.Some? && Get(raw.json.value, "error").Some? {
      var error := Get(raw.json.value, "error").value;
      assert HasError(raw, error);
      RateLimitCodes(error);
    }
  }

  /** JSON without an error member, and no refusal. */
  ghost predicate IsResult(t: Tables, raw: Raw, v: Value) {
    raw.Body? && !IsRefusal(t, raw) && raw.json == Some(v) && Get(v, "error").None?
  }

  /** JSON with an error of the caller's, and no refusal. */
  ghost predicate IsCallersError(t: Tables, raw: Raw, v: Value) {
    && raw.Body? && !IsRefusal(t, raw) && raw.json == Some(v)
    && exists error :: HasError(raw, error) && IsCallersFault(t, error)
  }

  /** No reply, or no JSON and no refusal. */
  ghost predicate IsUnreadable(t: Tables, raw: Raw) {
    raw.Unreachable? || (!IsRefusal(t, raw) && raw.json.None?)
  }

  /** The response of a reply is the body. */
  lemma ResponseIsBody(t: Tables, raw: Raw)
    ensures var reply := Classify(t, raw);
            reply.Success? || reply.UserError? || reply.ProviderError? ==>
              raw.Body? && raw.json == Some(reply.response)
  {
  }

  lemma ResultExactly(t: Tables, raw: Raw, v: Value)
    requires CanonicalCodes(raw)
    ensures Classify(t, raw) == Success(v) <==> IsResult(t, raw, v)
  {
    RefusalExactly(t, raw);
  }

  lemma FaultExactly(t: Tables, error: Value)
    requires CanonicalCode(error)
    ensures IsUserError(t, error) <==> IsCallersFault(t, error)
  {
    UserErrorCodes(error);
  }

  lemma CallersErrorExactly(t: Tables, raw: Raw, v: Value)
    requires CanonicalCodes(raw)
    ensures Classify(t, raw) == UserError(v) <==> IsCallersError(t, raw, v)
  {
    RefusalExactly(t, raw);
    if raw.Body? && raw.json == Some(v) && Get(v, "error").Some? {
      var error := Get(v, "error").value;
      assert HasError(raw, error);
      FaultExactly(t, error);
    }
  }

  /** Any other error, under the signature of its code, message and data. */
  ghost predicate IsProvidersError(t: Tables, raw: Raw, signature: nat) {
    && raw.Body? && !IsRefusal(t, raw)
    && exists error :: HasError(raw, error) && !IsCallersFault(t, error) && t.hash(ErrorStream(t, error)) == signature
  }

  lemma ProvidersErrorExactly(t: Tables, raw: Raw, signature: nat)
    requires CanonicalCodes(raw)
    ensures Classify(t, raw).ProviderError? && Classify(t, raw).signature == signature <==>
            IsProvidersError(t, raw, signature)
  {
    RefusalExactly(t, raw);
    if raw.Body? && raw.json.Some? && Get(raw.json.value, "error").Some? {
      var error := Get(raw.json.value, "error").value;
      assert HasError(raw, error);
      FaultExactly(t, error);
    }
  }

  lemma UnreadableExactly(t: Tables, raw: Raw)
    requires CanonicalCodes(raw)
    ensures Classify(t, raw).NetworkFailure? || Classify(t, raw).BadJson? <==> IsUnreadable(t, raw)
  {
    RefusalExactly(t, raw);
  }

  /** A response counts as a success only without an error member, and every other response has one. */
  lemma ClassifiedByError(t: Tables, raw: Raw)
    ensures var r := Classify(t, raw);
            && (r.Success? ==> Get(r.response, "error").None?)
            && (r.UserError? || r.ProviderError? ==> Get(r.response, "error").Some?)
  {
  }

  /** Two errors are counted as the same, but for hash collisions, exactly when their codes agree and either
      message and data agree, or one has only a message and the other only data, with the same text. */
  lemma SameStreamExactly(t: Tables, e: Value, f: Value)
    ensures ErrorStream(t, e) == ErrorStream(t, f) <==>
            && CodeOf(e) == CodeOf(f)
            && (|| (MessageOf(t, e) == MessageOf(t, f) && DataOf(e) == DataOf(f))
                || MessageReadsAsData(t, e, f)
                || MessageReadsAsData(t, f, e))
  {
    var a, b := ErrorStream(t, e), ErrorStream(t, f);
    StreamShape(t, e);
    StreamShape(t, f);
    if a == b {
      assert CodeOf(e) == CodeOf(f);
    }
  }

  predicate MessageReadsAsData(t: Tables, e: Value, f: Value) {
    && MessageOf(t, e).Some? && DataOf(e).None?
    && MessageOf(t, f).None? && DataOf(f) == Some(TText(MessageOf(t, e).value))
  }

  lemma StreamShape(t: Tables, e: Value)
    ensures var s, n := ErrorStream(t, e), if CodeOf(e).Some? then 1 else 0;
            && |s| == n + (if MessageOf(t, e).Some? then 1 else 0) + (if DataOf(e).Some? then 1 else 0)
            && (|s| > 0 && s[0].TCode? <==> CodeOf(e).Some?)
            && (CodeOf(e).Some? ==> s[0] == TCode(CodeOf(e).value))
            && (MessageOf(t, e).Some? ==> s[n] == TText(MessageOf(t, e).value))
            && (DataOf(e).Some? ==> s[|s| - 1] == DataOf(e).value)
  {
  }
}
