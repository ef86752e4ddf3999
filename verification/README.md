# Currency service `/convert` handler, modelled in Dafny

The currency service answers `POST /convert` with a body `{"value": "<code><amount>"}`
such as `{"value": "USD100"}`. It checks the value's shape, looks the three-byte
currency code up in a fixed rate table, and answers with the amount converted into
yen, rounded down: `floor(rate(JPY) / rate(code) * amount)`. Every failure is a
`400 Bad Request` with a message; success is a `200` with `{"answer": <int>}`.

The model is functional:

- `wrappers.dfy` — `Option`, used for "did not decode" and for `Atoi`'s error return.
- `strconv.dfy` — `Strconv.Atoi` as a specification of what Go's `strconv.Atoi`
  accepts (an optional `+`/`-`, at least one ASCII digit, a value inside Go's 64-bit
  `int`), with `Strconv.FormatInt` (what `strconv.Itoa` writes) as its inverse.
- `rates.dfy` — the rate table `currencies()` and the invariant the handler relies on.
- `currencyservice.dfy` — `ConvertRequest.IsValid`, the decision chain of
  `convertHandler.ServeHTTP` as a classifier returning one of four `Outcome`s, the
  conversion, `returnError`, and the response.

A Go string is a byte sequence. The model writes it as `string`, one `char` per byte,
so `|v|` is `len(v)`, `v[3..]` is `v[3:]` and `v[..3]` is `v[:3]`. The JSON decoder is
not modelled: the handler receives `None` when the body did not decode and
`Some(ConvertRequest(value))` when it did. Rates are exact reals.

## Model

| member | source | states |
|---|---|---|
| `Rates.Currencies` | src/currencyservice/main.go:59-67 | the table has exactly the five codes JPY, USD, EUR, BRL, AUD; every code is three bytes, every rate is strictly positive, and JPY is present |
| `CurrencyService.NewHandler` | src/currencyservice/main.go:29 | the handler `main` registers holds `currencies()` and so satisfies the table invariant |
| `CurrencyService.Classify` | src/currencyservice/main.go:82-97 | the checks run in order (decode, shape, lookup); an invalid format carries the whole original value; an unknown currency or a success happens only for a well-shaped value, and carries a three-byte prefix of it that is not (for an unknown currency) or is (for a success) a table key; a success's amount is what the suffix parses to |
| `CurrencyService.IsValid` | src/currencyservice/main.go:70-78 | a value is well shaped when it has at least four bytes and `Atoi` accepts the bytes from index 3; its consequences are stated by `ShortValueIsInvalid`, `NonDigitIsInvalid`, `MissingDigitsIsInvalid`, `OutOfRangeIsInvalid` and `ClassifyComposed` |
| `CurrencyService.ShortValueIsInvalid` | src/currencyservice/main.go:71-73 | any value shorter than four bytes is an invalid format, whatever it holds |
| `CurrencyService.NonDigitIsInvalid` | src/currencyservice/main.go:74-76 | a letter, decimal point or any other non-digit after the code (other than a leading sign) makes the value an invalid format |
| `CurrencyService.MissingDigitsIsInvalid` | src/currencyservice/main.go:71-76 | a code followed by nothing, or by a lone `+` or `-`, is an invalid format |
| `CurrencyService.OutOfRangeIsInvalid` | src/currencyservice/main.go:74-76 | a well-written amount outside Go's 64-bit `int` makes the value an invalid format, not an unknown currency |
| `CurrencyService.ClassifyComposed` | src/currencyservice/main.go:83-96 | a value built from a three-byte code and an in-range amount classifies back to that code and amount: a success when the code is a key, otherwise an unknown currency and never an invalid format |
| `CurrencyService.SuccessDecomposes` | src/currencyservice/main.go:91-96 | on success the value is the code followed by an integer text whose canonical form is exactly the amount used |
| `CurrencyService.Convert` | src/currencyservice/main.go:98 | the answer is the greatest integer not above `rate(JPY) / rate(code) * amount` |
| `CurrencyService.ConvertReferenceIsIdentity` | src/currencyservice/main.go:98 | converting yen gives the amount back |
| `CurrencyService.ConvertMonotone` | src/currencyservice/main.go:98 | a larger amount never yields a smaller answer |
| `CurrencyService.ConvertSign` | src/currencyservice/main.go:98 | the answer is non-negative for a non-negative amount and negative for a negative one (floor, not truncation) |
| `CurrencyService.ServeHTTP` | src/currencyservice/main.go:80-121 | every response is JSON with status 200 or 400; 200 exactly when the body is an answer; every error body carries the label "Bad Request" |
| `CurrencyService.ServeHTTPSuccess` | src/currencyservice/main.go:91-104 | status 200 exactly for a well-shaped value whose prefix is a table key; the answer uses that key's rate and exactly the integer parsed from the suffix |
| `CurrencyService.ErrorMessage` | src/currencyservice/main.go:84-92 | the message for each failure: "Failed to decode data", "Invalid format: " followed by the value, "Unknown currency: " followed by the code; `ErrorMessageInjective` proves distinct failures get distinct messages |
| `CurrencyService.ReturnError` | src/currencyservice/main.go:113-121 | a 400 response with JSON content type, the label "Bad Request" and the given message; `ServeHTTP` and `ServeHTTPErrors` state what every error response carries |
| `CurrencyService.ServeHTTPErrors` | src/currencyservice/main.go:83-94 | decode failure, invalid format and unknown currency each give a 400 with "Failed to decode data", "Invalid format: " followed by the whole value, and "Unknown currency: " followed by exactly the first three bytes |
| `CurrencyService.ErrorMessageInjective` | src/currencyservice/main.go:84-92 | two failures with the same message are the same failure, so the message identifies the category and the echoed value |
| `CurrencyService.ServeHTTPReadsOnlyCodeAndReference` | src/currencyservice/main.go:91-98 | the response depends on the table only through the request's code and the JPY rate |
| `CurrencyService.ServeAll` | src/currencyservice/main.go:29 | one shared, unchanged handler serves a stream of requests; each response is the handler's response to that request alone, so identical requests get identical responses |
| `CurrencyService.ExampleDollars` | src/currencyservice/main.go:96-100 | `USD100` answers 12195 |
| `CurrencyService.ExampleYen` | src/currencyservice/main.go:96-100 | `JPY100` answers 100 |
| `CurrencyService.ExampleUnknownCode` | src/currencyservice/main.go:91-92 | `XYZ100` gives "Unknown currency: XYZ" |
| `CurrencyService.ExampleTooShort` | src/currencyservice/main.go:71-73 | `US1` gives "Invalid format: US1" |
| `CurrencyService.ExampleLetters` | src/currencyservice/main.go:74-76 | `USDabc` gives "Invalid format: USDabc" |
| `Strconv.Atoi` | src/currencyservice/main.go:74 | `strconv.Atoi` as a specification: `Some(n)` exactly for an optional sign, one or more digits and a value in Go's 64-bit `int`; its properties are stated by `AtoiFormatInt`, `AtoiCanonical` and the three rejection lemmas |
| `Strconv.AtoiFormatInt` | src/currencyservice/main.go:74 | the parser reads back every in-range integer the formatter writes |
| `Strconv.AtoiRejectsOutOfRange` | src/currencyservice/main.go:74 | a well-written integer outside Go's 64-bit `int` is rejected |
| `Strconv.AtoiRejectsNonDigit` | src/currencyservice/main.go:74 | any byte that is not a digit, other than one leading sign, is rejected |
| `Strconv.AtoiRejectsNoDigits` | src/currencyservice/main.go:74 | the empty text and a lone sign are rejected |
| `Strconv.AtoiCanonical` | src/currencyservice/main.go:96 | whatever the parser accepts, formatting its value gives the text without `+`, leading zeros or a sign on zero |
| `Strconv.FormatNatIsCanonical` | src/currencyservice/main.go:96 | formatted digits are digits, carry no leading zero, and have the value formatted |

## Left out

- `main()`: reading `PORT`, the default port 8080, logging, `http.ListenAndServe` and the
  fatal exit are process start-up and I/O.
- JSON decoding and encoding and the writes to `http.ResponseWriter`: the response is a
  value holding the status, the `Content-Type` and the body; decode failure is `None`.
- `CurrencyService.Convert`: rates and the quotient are exact reals, not `float64`; the
  rounding of `0.82`-style rates, `float64(num)` losing precision above 2^53, and the
  result of `int(answer)` for answers outside Go's `int` are not modelled. The answer can
  therefore differ whenever the exact value is a whole number or lies close to one (every
  multiple of 109 AUD: for `AUD109` the model answers 10000, while the rounded `float64`
  product is just below 10000 and floors to 9999), whenever the answer exceeds 2^53 in
  magnitude (USD amounts above about 7.4×10^13), and whenever the answer falls outside
  Go's `int` (USD amounts above about 7.5×10^16).
- `CurrencyService.ConvertReferenceIsIdentity`: the program gives a yen amount back only while
  `float64(amount)` is exact (|amount| ≤ 2^53 is enough); `JPY4611686018427388004` answers
  4611686018427387904 there, the model 4611686018427388004.
- `CurrencyService.ConvertMonotone`: the program is monotone only while the answer fits Go's
  `int`; beyond it `int(answer)` is implementation-dependent.
- `CurrencyService.ConvertSign`: the program keeps the amount's sign only while the answer fits
  Go's `int`; beyond it `int(answer)` is implementation-dependent (on amd64 it can be negative
  for a positive amount).
- `Strconv.Atoi`: modelled as a specification, not from the `strconv` source, which is not
  part of this model. It returns `None` for both of Go's error kinds (syntax and range),
  because the handler only tests whether the error is nil. Go's `int` is taken as 64 bits.
- `CurrencyService.ServeHTTP`: requires the handler's table to satisfy the table invariant.
  The only handler the program builds (`main.go:29`) does; what the `float64` code would
  answer for a table without JPY or with a zero rate (an infinity or NaN) is not modelled.
- Request values are byte strings written one `char` per byte; nothing forces a `char` below
  256, so a value holding a character above that is not a Go byte string and is outside the model.
- Concurrent dispatch by the HTTP server: the handler only reads its table, so requests
  are modelled one at a time.
