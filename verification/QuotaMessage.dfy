/** The plain-text body of a 429 response and its parser, with the headers that the parser finds in it
    (`apps/api/limits.py`, `_format_quota_message`; `apps/api/api.py`, `_parse_quota_message`). */
module QuotaMessage {
  import opened Prelude

  // ---------------------------------------------------------------------
  // Decimal numerals
  // ---------------------------------------------------------------------

  predicate IsDigit(c: char) {
    '0' <= c <= '9'
  }

  /** `s.isdigit()`, on ASCII digits. */
  predicate IsNumeral(s: string) {
    s != "" && forall i | 0 <= i < |s| :: IsDigit(s[i])
  }

  /** `str(n)`. */
  function Printed(n: nat): (s: string)
    ensures IsNumeral(s)
  {
    if n < 10 then [('0' as int + n) as char] else Printed(n / 10) + [('0' as int + n % 10) as char]
  }

  /** `int(s)`. */
  function Read(s: string): nat
    requires IsNumeral(s)
  {
    var n := |s| - 1;
    var last := s[n] as int - '0' as int;
    if n == 0 then last else 10 * Read(s[..n]) + last
  }

  lemma {:induction false} ReadInvertsPrinted(n: nat)
    ensures Read(Printed(n)) == n
  {
    if n >= 10 {
      ReadInvertsPrinted(n / 10);
      var s := Printed(n);
      assert s[..|s| - 1] == Printed(n / 10);
    }
  }

  // ---------------------------------------------------------------------
  // Words
  // ---------------------------------------------------------------------

  predicate IsWord(s: string) {
    forall i | 0 <= i < |s| :: !IsSpace(s[i])
  }

  function WordLength(s: string): (n: nat)
    ensures n <= |s| && IsWord(s[..n])
    ensures n < |s| ==> IsSpace(s[n])
    ensures s != "" && !IsSpace(s[0]) ==> n > 0
  {
    if s == "" || IsSpace(s[0]) then 0 else 1 + WordLength(s[1..])
  }

  /** `s.split()`. */
  function Words(s: string): seq<string>
    decreases |s|
  {
    if s == "" then []
    else if IsSpace(s[0]) then Words(s[1..])
    else var n := WordLength(s); [s[..n]] + Words(s[n..])
  }

  lemma {:induction false} WordLengthStops(w: string, rest: string)
    requires IsWord(w) && (rest == "" || IsSpace(rest[0]))
    ensures WordLength(w + rest) == |w|
  {
    if w == "" {
      assert w + rest == rest;
    } else {
      assert (w + rest)[1..] == w[1..] + rest;
      WordLengthStops(w[1..], rest);
    }
  }

  lemma {:induction false} FirstWord(w: string, rest: string)
    requires w != "" && IsWord(w)
    ensures Words(w + " " + rest) == [w] + Words(rest)
    ensures Words(w) == [w]
  {
    var s := w + " " + rest;
    assert s == w + (" " + rest);
    WordLengthStops(w, " " + rest);
    assert s[..|w|] == w && s[|w|..] == " " + rest && (" " + rest)[1..] == rest;
    WordLengthStops(w, "");
    assert w + "" == w && w[..|w|] == w && w[|w|..] == "";
  }

  lemma {:induction false} WordsAreWords(s: string)
    ensures forall i | 0 <= i < |Words(s)| :: IsWord(Words(s)[i])
    decreases |s|
  {
    if s != "" {
      if IsSpace(s[0]) {
        WordsAreWords(s[1..]);
      } else {
        WordsAreWords(s[WordLength(s)..]);
      }
    }
  }

  // ---------------------------------------------------------------------
  // Printer and parser
  // ---------------------------------------------------------------------

  datatype Value = Num(n: nat) | Text(s: string)

  function Field(k: string, v: string): string {
    k + "=" + v
  }

  function Spaced(words: seq<string>): string {
    if words == [] then "" else if |words| == 1 then words[0] else words[0] + " " + Spaced(words[1..])
  }

  function Fields(tier: string, limit: nat, remaining: nat, retryAfter: nat): seq<string> {
    ["rate_limited", Field("tier", tier), Field("limit", Printed(limit)), Field("remaining", Printed(remaining)),
     Field("retry_after", Printed(retryAfter))]
  }

  /** `_format_quota_message`. */
  function Format(tier: string, limit: nat, remaining: nat, retryAfter: nat): string {
    Spaced(Fields(tier, limit, remaining, retryAfter))
  }

  /** The index of the first `=`, or the length if there is none. */
  function FirstEquals(s: string): (n: nat)
    ensures n <= |s| && '=' !in s[..n] && (n < |s| ==> s[n] == '=')
  {
    if s == "" || s[0] == '=' then 0 else 1 + FirstEquals(s[1..])
  }

  /** `int(v) if v.isdigit() else v`. */
  function ToValue(v: string): Value {
    if IsNumeral(v) then Num(Read(v)) else Text(v)
  }

  /** What the words of a message assign, the last assignment of a name winning. */
  function Assigned(words: seq<string>): map<string, Value> {
    if words == [] then map["error" := Text("rate_limited")]
    else
      var n := |words| - 1;
      var before, word := Assigned(words[..n]), words[n];
      var e := FirstEquals(word);
      if e < |word| then before[word[..e] := ToValue(word[e + 1..])] else before
  }

  predicate HasNumber(parts: map<string, Value>, key: string) {
    key in parts && parts[key].Num?
  }

  method ParseQuotaMessage(msg: string) returns (parts: map<string, Value>, headers: map<string, string>)
    ensures parts == Assigned(Words(msg))
    ensures "Retry-After" in headers <==> HasNumber(parts, "retry_after")
    ensures "X-RateLimit-Limit" in headers <==> HasNumber(parts, "limit")
    ensures "X-RateLimit-Remaining" in headers <==> HasNumber(parts, "remaining")
    ensures HasNumber(parts, "retry_after") ==> headers["Retry-After"] == Printed(parts["retry_after"].n)
    ensures HasNumber(parts, "limit") ==> headers["X-RateLimit-Limit"] == Printed(parts["limit"].n)
    ensures HasNumber(parts, "remaining") ==> headers["X-RateLimit-Remaining"] == Printed(parts["remaining"].n)
    ensures headers.Keys <= {"Retry-After", "X-RateLimit-Limit", "X-RateLimit-Remaining"}
  {
    parts := map["error" := Text("rate_limited")];
    var words := Words(msg);
    for i := 0 to |words|
      invariant parts == Assigned(words[..i])
    {
      assert words[..i + 1][..i] == words[..i];
      var token := words[i];
      var e := FirstEquals(token);
      if e < |token| {
        var v := token[e + 1..];
        parts := parts[token[..e] := if IsNumeral(v) then Num(Read(v)) else Text(v)];
      }
    }
    assert words[..|words|] == words;
    headers := map[];
    if "retry_after" in parts && parts["retry_after"].Num? {
      headers := headers["Retry-After" := Printed(parts["retry_after"].n)];
    }
    if "limit" in parts && parts["limit"].Num? {
      headers := headers["X-RateLimit-Limit" := Printed(parts["limit"].n)];
    }
    if "remaining" in parts && parts["remaining"].Num? {
      headers := headers["X-RateLimit-Remaining" := Printed(parts["remaining"].n)];
    }
  }

  // ---------------------------------------------------------------------
  // Round trip
  // ---------------------------------------------------------------------

  lemma NumeralIsWord(s: string)
    requires IsNumeral(s)
    ensures IsWord(s)
  {
    forall i | 0 <= i < |s| ensures !IsSpace(s[i]) {
      assert IsDigit(s[i]);
    }
  }

  lemma {:induction false} SplittingInvertsSpacing(words: seq<string>)
    requires forall i | 0 <= i < |words| :: words[i] != "" && IsWord(words[i])
    ensures Words(Spaced(words)) == words
  {
    if |words| == 1 {
      FirstWord(words[0], "");
    } else if |words| > 1 {
      FirstWord(words[0], Spaced(words[1..]));
      SplittingInvertsSpacing(words[1..]);
    }
  }

  lemma FieldIsWord(k: string, v: string)
    requires IsWord(k) && IsWord(v)
    ensures IsWord(Field(k, v))
  {
  }

  lemma FormattedWords(tier: string, limit: nat, remaining: nat, retryAfter: nat)
    requires IsWord(tier)
    ensures Words(Format(tier, limit, remaining, retryAfter)) == Fields(tier, limit, remaining, retryAfter)
  {
    NumeralIsWord(Printed(limit));
    NumeralIsWord(Printed(remaining));
    NumeralIsWord(Printed(retryAfter));
    FieldIsWord("tier", tier);
    FieldIsWord("limit", Printed(limit));
    FieldIsWord("remaining", Printed(remaining));
    FieldIsWord("retry_after", Printed(retryAfter));
    SplittingInvertsSpacing(Fields(tier, limit, remaining, retryAfter));
  }

  lemma {:induction false} FirstEqualsAfter(k: string, v: string)
    requires '=' !in k
    ensures FirstEquals(k + "=" + v) == |k|
  {
    var s := k + "=" + v;
    if k != "" {
      assert s[1..] == k[1..] + "=" + v;
      FirstEqualsAfter(k[1..], v);
    }
  }

  lemma {:induction false} AssignWord(words: seq<string>, k: string, v: string)
    requires '=' !in k
    ensures Assigned(words + [Field(k, v)]) == Assigned(words)[k := ToValue(v)]
  {
    var word := Field(k, v);
    FirstEqualsAfter(k, v);
    assert (words + [word])[..|words|] == words;
    assert word[..|k|] == k && word[|k| + 1..] == v;
  }

  /** No value that the parser stores as text contains whitespace or reads as a number. */
  lemma {:induction false} TextIsPlain(words: seq<string>)
    requires forall i | 0 <= i < |words| :: IsWord(words[i])
    ensures forall k | k in Assigned(words) && Assigned(words)[k].Text? ::
              IsWord(Assigned(words)[k].s) && !IsNumeral(Assigned(words)[k].s)
  {
    if words == [] {
      assert !IsDigit("rate_limited"[0]);
    } else {
      var n := |words| - 1;
      TextIsPlain(words[..n]);
      assert IsWord(words[n]);
    }
  }

  /** Parsing a formatted message recovers every field if and only if the tier has no whitespace and is not
      a number. */
  lemma FormatRoundTrips(tier: string, limit: nat, remaining: nat, retryAfter: nat)
    ensures Assigned(Words(Format(tier, limit, remaining, retryAfter)))
            == map["error" := Text("rate_limited"), "tier" := Text(tier), "limit" := Num(limit),
                   "remaining" := Num(remaining), "retry_after" := Num(retryAfter)]
            <==> IsWord(tier) && !IsNumeral(tier)
  {
    var msg := Format(tier, limit, remaining, retryAfter);
    var expected := map["error" := Text("rate_limited"), "tier" := Text(tier), "limit" := Num(limit),
                        "remaining" := Num(remaining), "retry_after" := Num(retryAfter)];
    if IsWord(tier) && !IsNumeral(tier) {
      FormattedWords(tier, limit, remaining, retryAfter);
      FormattedParts(tier, limit, remaining, retryAfter);
    } else {
      WordsAreWords(msg);
      TextIsPlain(Words(msg));
      assert expected["tier"] == Text(tier);
    }
  }

  lemma FourFields(first: string, k1: string, v1: string, k2: string, v2: string, k3: string, v3: string,
                   k4: string, v4: string)
    requires '=' !in first && '=' !in k1 && '=' !in k2 && '=' !in k3 && '=' !in k4
    ensures Assigned([first, Field(k1, v1), Field(k2, v2), Field(k3, v3), Field(k4, v4)])
            == Assigned([])[k1 := ToValue(v1)][k2 := ToValue(v2)][k3 := ToValue(v3)][k4 := ToValue(v4)]
  {
    var w1 := [first];
    var w2 := w1 + [Field(k1, v1)];
    var w3 := w2 + [Field(k2, v2)];
    var w4 := w3 + [Field(k3, v3)];
    assert w1[..0] == [];
    AssignWord(w1, k1, v1);
    AssignWord(w2, k2, v2);
    AssignWord(w3, k3, v3);
    AssignWord(w4, k4, v4);
    assert w4 + [Field(k4, v4)] == [first, Field(k1, v1), Field(k2, v2), Field(k3, v3), Field(k4, v4)];
  }

  lemma FormattedParts(tier: string, limit: nat, remaining: nat, retryAfter: nat)
    requires !IsNumeral(tier)
    ensures Assigned(Fields(tier, limit, remaining, retryAfter))
            == map["error" := Text("rate_limited"), "tier" := Text(tier), "limit" := Num(limit),
                   "remaining" := Num(remaining), "retry_after" := Num(retryAfter)]
  {
    FourFields("rate_limited", "tier", tier, "limit", Printed(limit), "remaining", Printed(remaining),
               "retry_after", Printed(retryAfter));
    ReadInvertsPrinted(limit);
    ReadInvertsPrinted(remaining);
    ReadInvertsPrinted(retryAfter);
  }
}
