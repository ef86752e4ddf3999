/**
 * The `/convert` request handler of the currency service: shape validation
 * of the request value, the ordered chain of error checks, the conversion
 * into yen and the JSON responses it writes.
 *
 * JSON decoding is outside the model: the handler receives `None` when the
 * body did not decode and `Some(request)` when it did.
 */
module CurrencyService {
  import opened Wrappers
  import opened Strconv
  import opened Rates

  /** Length of the currency code at the front of a request value. */
  const CodeLength: nat := 3

  /** The decoded request body `{"value": "<code><amount>"}`. */
  datatype ConvertRequest = ConvertRequest(value: string)

  /** The object registered for `/convert`; it holds the rate table and
      nothing else, and no operation below returns a changed copy of it. */
  datatype ConvertHandler = ConvertHandler(currencies: RateTable)

  /** The handler `main` registers: built once, over `currencies()`. */
  function NewHandler(): (h: ConvertHandler)
    ensures ValidTable(h.currencies)
    ensures Currencies() == h.currencies
  {
    ConvertHandler(Currencies())
  }

  /** `ConvertRequest.IsValid`: at least four bytes, and the bytes from
      index 3 on parse as an integer. The code itself is not checked here. */
  predicate IsValid(req: ConvertRequest) {
    |req.value| >= CodeLength + 1 && Atoi(req.value[CodeLength..]).Some?
  }

  /** The four ways a request can end. */
  datatype Outcome =
    | DecodeError
    | InvalidFormat(value: string)
    | UnknownCurrency(code: string)
    | Success(code: string, amount: int)

  /** The decision chain of `ServeHTTP`: decoding, then shape, then the
      currency lookup, the first failing check deciding the outcome. */
  function Classify(currencies: RateTable, req: Option<ConvertRequest>): (o: Outcome)
    ensures o.DecodeError? <==> req.None?
    ensures o.InvalidFormat? <==> req.Some? && !IsValid(req.value)
    ensures o.InvalidFormat? ==> req == Some(ConvertRequest(o.value))
    ensures o.UnknownCurrency? || o.Success? ==> req.Some? && IsValid(req.value)
    ensures o.UnknownCurrency? ==> |o.code| == CodeLength && o.code <= req.value.value && o.code !in currencies
    ensures o.Success? ==>
      && |o.code| == CodeLength && o.code <= req.value.value && o.code in currencies
      && Atoi(req.value.value[CodeLength..]) == Some(o.amount)
  {
    match req
    case None => DecodeError
    case Some(r) =>
      if !IsValid(r) then InvalidFormat(r.value)
      else if r.value[..CodeLength] !in currencies then UnknownCurrency(r.value[..CodeLength])
      else Success(r.value[..CodeLength], Atoi(r.value[CodeLength..]).value)
  }

  /** A value shorter than four bytes is an invalid format, whatever it holds. */
  lemma ShortValueIsInvalid(currencies: RateTable, v: string)
    requires |v| < CodeLength + 1
    ensures Classify(currencies, Some(ConvertRequest(v))) == InvalidFormat(v)
  {
  }

  /** A byte after the code that is neither a digit nor the amount's leading
      sign (a letter, a decimal point, a space) makes the value invalid. */
  lemma NonDigitIsInvalid(currencies: RateTable, v: string, i: nat)
    requires CodeLength <= i < |v| && !IsDigit(v[i])
    requires i > CodeLength || !IsSign(v[i])
    ensures Classify(currencies, Some(ConvertRequest(v))) == InvalidFormat(v)
  {
    AtoiRejectsNonDigit(v[CodeLength..], i - CodeLength);
  }

  /** A code followed by a lone sign, or by nothing, is an invalid format. */
  lemma MissingDigitsIsInvalid(currencies: RateTable, code: string, sign: string)
    requires |code| == CodeLength
    requires sign == "" || sign == "+" || sign == "-"
    ensures Classify(currencies, Some(ConvertRequest(code + sign))) == InvalidFormat(code + sign)
  {
    assert (code + sign)[CodeLength..] == sign;
    AtoiRejectsNoDigits(sign);
  }

  /** An amount written out in full but outside Go's 64-bit `int` makes
      the value an invalid format, not an unknown currency. */
  lemma OutOfRangeIsInvalid(currencies: RateTable, code: string, amount: int)
    requires |code| == CodeLength && !InIntRange(amount)
    ensures Classify(currencies, Some(ConvertRequest(code + FormatInt(amount))))
         == InvalidFormat(code + FormatInt(amount))
  {
    var v := code + FormatInt(amount);
    assert v[CodeLength..] == FormatInt(amount);
    AtoiRejectsOutOfRange(amount);
  }

  /** Building a value from a three-byte code and an in-range amount and
      classifying it gives the code and the amount back: a success when
      the code is a table key, an unknown currency (never an invalid
      format) when it is not. */
  lemma ClassifyComposed(currencies: RateTable, code: string, amount: int)
    requires |code| == CodeLength && InIntRange(amount)
    ensures Classify(currencies, Some(ConvertRequest(code + FormatInt(amount))))
         == if code in currencies then Success(code, amount) else UnknownCurrency(code)
  {
    var v := code + FormatInt(amount);
    assert v[CodeLength..] == FormatInt(amount);
    assert v[..CodeLength] == code;
    AtoiFormatInt(amount);
    FormatNatIsCanonical(if amount < 0 then -amount else amount);
  }

  /** Conversely, a successful classification splits the value into the
      code and the canonical text of the amount, up to a `+` sign and
      leading zeros in the original. */
  lemma SuccessDecomposes(currencies: RateTable, req: Option<ConvertRequest>)
    requires Classify(currencies, req).Success?
    ensures var o := Classify(currencies, req);
      && IsIntegerText(req.value.value[CodeLength..])
      && req.value.value == o.code + req.value.value[CodeLength..]
      && FormatInt(o.amount) == Canonical(req.value.value[CodeLength..])
  {
    var v := req.value.value;
    AtoiCanonical(v[CodeLength..]);
    assert v == v[..CodeLength] + v[CodeLength..];
  }

  /** The exact amount of yen `amount` units of `code` are worth. */
  function ExactYen(currencies: RateTable, code: string, amount: int): real
    requires ValidTable(currencies) && code in currencies
  {
    currencies[Reference] / currencies[code] * amount as real
  }

  /** The answer: the largest integer not above the exact amount of yen,
      so negative amounts round away from zero. */
  function Convert(currencies: RateTable, code: string, amount: int): (answer: int)
    requires ValidTable(currencies) && code in currencies
    ensures answer as real <= ExactYen(currencies, code, amount) < answer as real + 1.0
  {
    ExactYen(currencies, code, amount).Floor
  }

  /** Converting yen into yen changes nothing. */
  lemma ConvertReferenceIsIdentity(currencies: RateTable, amount: int)
    requires ValidTable(currencies)
    ensures Convert(currencies, Reference, amount) == amount
  {
    var r := currencies[Reference];
    assert r / r == 1.0;
  }

  /** Because every rate is positive, a larger amount never converts to
      fewer yen. */
  lemma ConvertMonotone(currencies: RateTable, code: string, a: int, b: int)
    requires ValidTable(currencies) && code in currencies
    requires a <= b
    ensures Convert(currencies, code, a) <= Convert(currencies, code, b)
  {
    var k := currencies[Reference] / currencies[code];
    assert k > 0.0;
    assert k * a as real <= k * b as real;
  }

  /** The answer has the sign of the amount: rounding down keeps a
      negative amount negative rather than truncating it to zero. */
  lemma ConvertSign(currencies: RateTable, code: string, amount: int)
    requires ValidTable(currencies) && code in currencies
    ensures amount >= 0 ==> Convert(currencies, code, amount) >= 0
    ensures amount < 0 ==> Convert(currencies, code, amount) < 0
  {
    var k := currencies[Reference] / currencies[code];
    assert k > 0.0;
    if amount < 0 {
      assert k * amount as real < 0.0;
    } else {
      assert k * amount as real >= 0.0;
    }
  }

  const StatusOK: int := 200
  const StatusBadRequest: int := 400
  const JsonContentType: string := "application/json"
  const BadRequestLabel: string := "Bad Request"

  /** `ConvertResponse` on success, `ErrorJSON` on failure. */
  datatype Body =
    | ConvertResponse(answer: int)
    | ErrorJSON(error: string, message: string)

  /** What the handler writes: status code, `Content-Type` header and body. */
  datatype Response = Response(status: int, contentType: string, body: Body)

  /** `returnError`: a 400 response with the fixed label and the message. */
  function ReturnError(message: string): Response {
    Response(StatusBadRequest, JsonContentType, ErrorJSON(BadRequestLabel, message))
  }

  /** The message `ServeHTTP` hands to `returnError` for each failure. */
  function ErrorMessage(o: Outcome): string
    requires !o.Success?
  {
    match o
    case DecodeError => "Failed to decode data"
    case InvalidFormat(v) => "Invalid format: " + v
    case UnknownCurrency(c) => "Unknown currency: " + c
  }

  /** `convertHandler.ServeHTTP`. The handler is a value it only reads. */
  function ServeHTTP(h: ConvertHandler, req: Option<ConvertRequest>): (r: Response)
    requires ValidTable(h.currencies)
    ensures r.contentType == JsonContentType
    ensures r.status == StatusOK || r.status == StatusBadRequest
    ensures r.status == StatusOK <==> r.body.ConvertResponse?
    ensures r.body.ErrorJSON? ==> r.body.error == BadRequestLabel
  {
    var o := Classify(h.currencies, req);
    if o.Success? then
      Response(StatusOK, JsonContentType, ConvertResponse(Convert(h.currencies, o.code, o.amount)))
    else
      ReturnError(ErrorMessage(o))
  }

  /** The success path is reached exactly for a well-shaped value whose code
      is a table key; the answer is computed from that key's rate and from
      exactly the integer the suffix parses to. */
  lemma ServeHTTPSuccess(h: ConvertHandler, req: Option<ConvertRequest>)
    requires ValidTable(h.currencies)
    ensures var r := ServeHTTP(h, req);
      r.status == StatusOK <==>
        req.Some? && IsValid(req.value) && req.value.value[..CodeLength] in h.currencies
    ensures var r := ServeHTTP(h, req);
      r.status == StatusOK ==>
        r.body.answer == Convert(h.currencies, req.value.value[..CodeLength],
                                 Atoi(req.value.value[CodeLength..]).value)
  {
  }

  /** Each failure is a 400 "Bad Request" whose message names it: the whole
      value for an invalid format, exactly its first three bytes for an
      unknown currency. */
  lemma ServeHTTPErrors(h: ConvertHandler, req: Option<ConvertRequest>)
    requires ValidTable(h.currencies)
    ensures req.None? ==> ServeHTTP(h, req) == ReturnError("Failed to decode data")
    ensures req.Some? && !IsValid(req.value) ==>
      ServeHTTP(h, req) == ReturnError("Invalid format: " + req.value.value)
    ensures req.Some? && IsValid(req.value) && req.value.value[..CodeLength] !in h.currencies ==>
      ServeHTTP(h, req) == ReturnError("Unknown currency: " + req.value.value[..CodeLength])
  {
  }

  /** The three failure messages never coincide, so a caller can tell the
      failures apart and read the echoed value or code back. */
  lemma ErrorMessageInjective(o1: Outcome, o2: Outcome)
    requires !o1.Success? && !o2.Success?
    requires ErrorMessage(o1) == ErrorMessage(o2)
    ensures o1 == o2
  {
    var m := ErrorMessage(o1);
    match o1
    case DecodeError =>
      assert m[0] == 'F';
    case InvalidFormat(v) =>
      assert m[0] == 'I';
      if o2.InvalidFormat? {
        assert v == m[|"Invalid format: "|..] == o2.value;
      }
    case UnknownCurrency(c) =>
      assert m[0] == 'U';
      if o2.UnknownCurrency? {
        assert c == m[|"Unknown currency: "|..] == o2.code;
      }
  }

  /** The handler reads its table only at the request's code and at the
      reference currency: two tables that agree there give the same
      response. */
  lemma ServeHTTPReadsOnlyCodeAndReference(h1: ConvertHandler, h2: ConvertHandler, req: Option<ConvertRequest>)
    requires ValidTable(h1.currencies) && ValidTable(h2.currencies)
    requires h1.currencies[Reference] == h2.currencies[Reference]
    requires req.Some? && |req.value.value| >= CodeLength ==>
      var code := req.value.value[..CodeLength];
      && (code in h1.currencies <==> code in h2.currencies)
      && (code in h1.currencies ==> h1.currencies[code] == h2.currencies[code])
    ensures ServeHTTP(h1, req) == ServeHTTP(h2, req)
  {
    var o := Classify(h1.currencies, req);
    assert o == Classify(h2.currencies, req);
    if o.Success? {
      var c1, c2 := h1.currencies, h2.currencies;
      assert c1[o.code] == c2[o.code] && c1[Reference] == c2[Reference];
      assert ExactYen(c1, o.code, o.amount) == ExactYen(c2, o.code, o.amount) by {
        assert c1[Reference] / c1[o.code] == c2[Reference] / c2[o.code];
      }
    }
  }

  /** The server hands every request to the one shared handler. Since the
      handler is never changed, each response depends on its own request
      alone: identical requests get identical responses wherever they
      occur in the stream. */
  method ServeAll(h: ConvertHandler, reqs: seq<Option<ConvertRequest>>) returns (rs: seq<Response>)
    requires ValidTable(h.currencies)
    ensures |rs| == |reqs|
    ensures forall i | 0 <= i < |reqs| :: rs[i] == ServeHTTP(h, reqs[i])
    ensures forall i, j | 0 <= i < |reqs| && 0 <= j < |reqs| && reqs[i] == reqs[j] :: rs[i] == rs[j]
  {
    rs := [];
    var k := 0;
    while k < |reqs|
      invariant k <= |reqs| && |rs| == k
      invariant forall i | 0 <= i < k :: rs[i] == ServeHTTP(h, reqs[i])
    {
      var r := ServeHTTP(h, reqs[k]);
      var next := rs + [r];
      forall i | 0 <= i <= k
        ensures next[i] == ServeHTTP(h, reqs[i])
      {
        if i < k {
          assert next[i] == rs[i];
        }
      }
      rs := next;
      k := k + 1;
    }
    forall i, j | 0 <= i < |reqs| && 0 <= j < |reqs| && reqs[i] == reqs[j]
      ensures rs[i] == rs[j]
    {
      assert rs[i] == ServeHTTP(h, reqs[i]) && rs[j] == ServeHTTP(h, reqs[j]);
    }
  }

  /** The text `100` shared by the `USD100`, `JPY100` and `XYZ100` examples. */
  lemma Hundred()
    ensures FormatInt(100) == "100" && InIntRange(100)
  {
    assert DigitChar(1) == '1' && DigitChar(0) == '0';
    assert FormatNat(1) == "1";
    assert FormatNat(10) == "1" + "0";
    assert FormatNat(100) == "10" + "0";
  }

  /** A request `<code>100` for a three-letter code is well shaped. */
  lemma ClassifyHundred(code: string)
    requires |code| == CodeLength
    ensures Classify(Currencies(), Some(ConvertRequest(code + "100")))
         == if code in Currencies() then Success(code, 100) else UnknownCurrency(code)
  {
    Hundred();
    ClassifyComposed(Currencies(), code, 100);
  }

  /** `USD100`: 100 dollars at 0.82 against 100 are 12195.12... yen, answered as 12195. */
  lemma ExampleDollars()
    ensures ServeHTTP(NewHandler(), Some(ConvertRequest("USD100"))).body == ConvertResponse(12195)
  {
    assert "USD" + "100" == "USD100";
    ClassifyHundred("USD");
    DollarsToYen();
  }

  /** The conversion step of the `USD100` example. */
  lemma DollarsToYen()
    ensures Convert(Currencies(), "USD", 100) == 12195
  {
    assert ExactYen(Currencies(), "USD", 100) == 1000000.0 / 82.0;
  }

  /** `JPY100`: yen convert to themselves. */
  lemma ExampleYen()
    ensures ServeHTTP(NewHandler(), Some(ConvertRequest("JPY100"))).body == ConvertResponse(100)
  {
    assert "JPY" + "100" == "JPY100";
    ClassifyHundred("JPY");
    ConvertReferenceIsIdentity(Currencies(), 100);
  }

  /** `XYZ100`: well shaped, unknown code. */
  lemma ExampleUnknownCode()
    ensures ServeHTTP(NewHandler(), Some(ConvertRequest("XYZ100"))) == ReturnError("Unknown currency: " + "XYZ")
  {
    ClassifyUnknownCode();
    assert "XYZ100"[..CodeLength] == "XYZ";
  }

  /** The classification step of the `XYZ100` example. */
  lemma ClassifyUnknownCode()
    ensures Classify(Currencies(), Some(ConvertRequest("XYZ100"))) == UnknownCurrency("XYZ")
  {
    assert "XYZ" + "100" == "XYZ100";
    assert "XYZ" !in Currencies() by {
      assert "XYZ"[0] == 'X';
    }
    ClassifyHundred("XYZ");
  }

  /** `US1` is too short. */
  lemma ExampleTooShort()
    ensures ServeHTTP(NewHandler(), Some(ConvertRequest("US1"))) == ReturnError("Invalid format: " + "US1")
  {
    ShortValueIsInvalid(Currencies(), "US1");
  }

  /** `USDabc` has letters where the amount should be. */
  lemma ExampleLetters()
    ensures ServeHTTP(NewHandler(), Some(ConvertRequest("USDabc"))) == ReturnError("Invalid format: " + "USDabc")
  {
    NonDigitIsInvalid(Currencies(), "USDabc", 3);
  }
}
