/** An algorithm configuration: the parameter assignment of one tuner candidate,
    a map from parameter name to textual value, built from a map or parsed from
    `key=value` tokens, and read through typed getters. */
module AlgorithmConfiguration {
  import opened Wrappers
  import opened JavaLang
  import JavaSplit

  datatype Configuration = Configuration(params: map<string, string>)

  const SEPARATOR: char := '='
  const QUOTE: char := '\''

  /** The start of the message for a token that is not `key=value`; Java appends
      the split array's identity string to it. */
  const INVALID_PARAMETER: string := "Invalid algorithm parameter, length != 2: "

  // ---------------------------------------------------------------------------
  // Construction

  /** Construction from a map stores the map itself. */
  function FromMap(params: map<string, string>): (c: Configuration)
    ensures GetConfig(c) == params
  {
    Configuration(params)
  }

  /** A value counts as quoted when it starts and ends with a single quote; a lone
      quote character passes this test too. */
  predicate IsQuoted(v: string) {
    |v| >= 1 && v[0] == QUOTE && v[|v| - 1] == QUOTE
  }

  /** Removes one quote from each end of a quoted value; `substring(1, 0)` throws
      for the lone quote. */
  function Unquote(v: string): (r: Result<string, Exception>)
    ensures r.Failure? <==> v == [QUOTE]
    ensures r.Failure? ==> r.error == StringIndexOutOfBounds(1, 0)
    ensures r.Success? && IsQuoted(v) ==> [QUOTE] + r.value + [QUOTE] == v
    ensures !IsQuoted(v) ==> r == Success(v)
  {
    if IsQuoted(v) then Substring(v, 1, |v| - 1) else Success(v)
  }

  /** Quoting a value and unquoting it gives the value back. */
  lemma UnquoteOfQuoted(x: string)
    ensures Unquote([QUOTE] + x + [QUOTE]) == Success(x)
  {
    var v := [QUOTE] + x + [QUOTE];
    assert v[1..|v| - 1] == x;
  }

  /** A token yields a key and a value when `split("=")` gives two or more pieces. */
  predicate HasKeyAndValue(token: string) {
    |JavaSplit.SplitOn(token, SEPARATOR)| >= 2
  }

  function KeyOf(token: string): string
    requires HasKeyAndValue(token)
  {
    JavaSplit.SplitOn(token, SEPARATOR)[0]
  }

  /** The piece between the first and the second `=`; later pieces are ignored. */
  function RawValueOf(token: string): string
    requires HasKeyAndValue(token)
  {
    JavaSplit.SplitOn(token, SEPARATOR)[1]
  }

  /** A token the parser accepts on its own (keys still have to be distinct). */
  predicate WellFormed(token: string) {
    HasKeyAndValue(token) && RawValueOf(token) != [QUOTE]
  }

  function ValueOf(token: string): string
    requires WellFormed(token)
  {
    Unquote(RawValueOf(token)).value
  }

  predicate AllWellFormed(tokens: seq<string>) {
    forall i | 0 <= i < |tokens| :: WellFormed(tokens[i])
  }

  predicate DistinctKeys(tokens: seq<string>)
    requires AllWellFormed(tokens)
  {
    forall i, j | 0 <= i < j < |tokens| :: KeyOf(tokens[i]) != KeyOf(tokens[j])
  }

  /** The constructor's loop from the point where `acc` holds the entries of the
      tokens already consumed. The checks of one token run in source order: fewer
      than two pieces, no piece at all (`keyValue[0]`), repeated key, lone quote. */
  function ParseInto(acc: map<string, string>, tokens: seq<string>): Result<map<string, string>, Exception>
    decreases |tokens|
  {
    if |tokens| == 0 then Success(acc)
    else
      var keyValue := JavaSplit.SplitOn(tokens[0], SEPARATOR);
      if |keyValue| == 1 then Failure(IllegalArgument(INVALID_PARAMETER))
      else if |keyValue| == 0 then Failure(ArrayIndexOutOfBounds(0))
      else if keyValue[0] in acc then Failure(IllegalArgument("Duplicated key: " + keyValue[0]))
      else
        match Unquote(keyValue[1])
        case Failure(e) => Failure(e)
        case Success(value) => ParseInto(acc[keyValue[0] := value], tokens[1..])
  }

  /** `new AlgorithmConfiguration(String[] args)`. */
  function Parse(tokens: seq<string>): (r: Result<Configuration, Exception>)
    ensures r.Success? <==> AllWellFormed(tokens) && DistinctKeys(tokens)
    ensures r.Success? ==> |r.value.params| == |tokens|
    ensures r.Success? ==> forall i | 0 <= i < |tokens| ::
              KeyOf(tokens[i]) in r.value.params && r.value.params[KeyOf(tokens[i])] == ValueOf(tokens[i])
    ensures r.Success? ==> r.value.params.Keys == KeysOf(tokens)
  {
    ParseIntoSucceeds(map[], tokens);
    match ParseInto(map[], tokens)
    case Success(params) =>
      assert Accepted(map[], tokens);
      ParseIntoContents(map[], tokens);
      KeysOfSize(tokens);
      Success(Configuration(params))
    case Failure(e) => Failure(e)
  }

  /** The condition under which the loop, started from `acc`, accepts `tokens`. */
  predicate Accepted(acc: map<string, string>, tokens: seq<string>) {
    && AllWellFormed(tokens)
    && DistinctKeys(tokens)
    && forall i | 0 <= i < |tokens| :: KeyOf(tokens[i]) !in acc
  }

  lemma ParseIntoStep(acc: map<string, string>, tokens: seq<string>)
    requires |tokens| > 0 && WellFormed(tokens[0]) && KeyOf(tokens[0]) !in acc
    ensures ParseInto(acc, tokens) == ParseInto(acc[KeyOf(tokens[0]) := ValueOf(tokens[0])], tokens[1..])
  {
  }

  lemma ParseIntoStops(acc: map<string, string>, tokens: seq<string>)
    requires |tokens| > 0 && !(WellFormed(tokens[0]) && KeyOf(tokens[0]) !in acc)
    ensures ParseInto(acc, tokens).Failure?
  {
  }

  lemma ParseIntoRepeatedKey(acc: map<string, string>, tokens: seq<string>)
    requires |tokens| > 0 && HasKeyAndValue(tokens[0]) && KeyOf(tokens[0]) in acc
    ensures ParseInto(acc, tokens) == Failure(IllegalArgument("Duplicated key: " + KeyOf(tokens[0])))
  {
  }

  lemma AcceptedStep(acc: map<string, string>, tokens: seq<string>)
    requires |tokens| > 0
    ensures Accepted(acc, tokens) <==>
              && WellFormed(tokens[0]) && KeyOf(tokens[0]) !in acc
              && Accepted(acc[KeyOf(tokens[0]) := ValueOf(tokens[0])], tokens[1..])
  {
    var rest := tokens[1..];
    forall i | 0 <= i < |rest| ensures rest[i] == tokens[i + 1] { }
    if WellFormed(tokens[0]) && KeyOf(tokens[0]) !in acc {
      var acc' := acc[KeyOf(tokens[0]) := ValueOf(tokens[0])];
      if Accepted(acc', rest) {
        assert AllWellFormed(tokens) by {
          forall i | 0 <= i < |tokens| ensures WellFormed(tokens[i]) {
            if i > 0 { assert WellFormed(rest[i - 1]); }
          }
        }
        assert DistinctKeys(tokens) by {
          forall i, j | 0 <= i < j < |tokens| ensures KeyOf(tokens[i]) != KeyOf(tokens[j]) {
            assert KeyOf(rest[j - 1]) !in acc';
            if i > 0 { assert KeyOf(rest[i - 1]) != KeyOf(rest[j - 1]); }
          }
        }
        forall i | 0 <= i < |tokens| ensures KeyOf(tokens[i]) !in acc {
          if i > 0 { assert KeyOf(rest[i - 1]) !in acc'; }
        }
      }
    }
  }

  /** The loop succeeds exactly on accepted input. */
  lemma {:induction false} ParseIntoSucceeds(acc: map<string, string>, tokens: seq<string>)
    ensures ParseInto(acc, tokens).Success? <==> Accepted(acc, tokens)
    decreases |tokens|
  {
    if |tokens| > 0 {
      AcceptedStep(acc, tokens);
      if WellFormed(tokens[0]) && KeyOf(tokens[0]) !in acc {
        ParseIntoStep(acc, tokens);
        ParseIntoSucceeds(acc[KeyOf(tokens[0]) := ValueOf(tokens[0])], tokens[1..]);
      } else {
        ParseIntoStops(acc, tokens);
      }
    }
  }

  /** On success the loop adds one entry per token and keeps the earlier entries. */
  lemma {:induction false} ParseIntoContents(acc: map<string, string>, tokens: seq<string>)
    requires Accepted(acc, tokens)
    ensures ParseInto(acc, tokens).Success?
    ensures ParseInto(acc, tokens).value.Keys == acc.Keys + KeysOf(tokens)
    ensures forall k | k in acc :: ParseInto(acc, tokens).value[k] == acc[k]
    ensures forall i | 0 <= i < |tokens| :: ParseInto(acc, tokens).value[KeyOf(tokens[i])] == ValueOf(tokens[i])
    decreases |tokens|
  {
    ParseIntoSucceeds(acc, tokens);
    if |tokens| > 0 {
      AcceptedStep(acc, tokens);
      var acc' := acc[KeyOf(tokens[0]) := ValueOf(tokens[0])];
      var rest := tokens[1..];
      ParseIntoStep(acc, tokens);
      ParseIntoContents(acc', rest);
      KeysOfCons(tokens);
      var m := ParseInto(acc', rest).value;
      forall i | 0 <= i < |tokens| ensures m[KeyOf(tokens[i])] == ValueOf(tokens[i]) {
        if i > 0 { assert rest[i - 1] == tokens[i]; }
      }
    }
  }

  /** Distinct keys: as many keys as tokens. */
  lemma {:induction false} KeysOfSize(tokens: seq<string>)
    requires AllWellFormed(tokens) && DistinctKeys(tokens)
    ensures |KeysOf(tokens)| == |tokens|
    decreases |tokens|
  {
    if |tokens| > 0 {
      KeysOfCons(tokens);
      var rest := tokens[1..];
      assert DistinctKeys(rest) by {
        forall i, j | 0 <= i < j < |rest| ensures KeyOf(rest[i]) != KeyOf(rest[j]) {
          assert rest[i] == tokens[i + 1] && rest[j] == tokens[j + 1];
        }
      }
      KeysOfSize(rest);
      assert KeyOf(tokens[0]) !in KeysOf(rest);
    }
  }

  /** The keys of a sequence of well-formed tokens. */
  function KeysOf(tokens: seq<string>): (keys: set<string>)
    requires AllWellFormed(tokens)
  {
    set i | 0 <= i < |tokens| :: KeyOf(tokens[i])
  }

  lemma KeysOfCons(tokens: seq<string>)
    requires |tokens| > 0 && AllWellFormed(tokens)
    ensures AllWellFormed(tokens[1..])
    ensures KeysOf(tokens) == {KeyOf(tokens[0])} + KeysOf(tokens[1..])
  {
    var rest := tokens[1..];
    forall i | 0 <= i < |rest| ensures rest[i] == tokens[i + 1] && WellFormed(rest[i]) { }
    forall k | k in KeysOf(tokens) ensures k in {KeyOf(tokens[0])} + KeysOf(rest) {
      var i :| 0 <= i < |tokens| && KeyOf(tokens[i]) == k;
      if i > 0 { assert KeyOf(rest[i - 1]) == k; }
    }
    forall k | k in KeysOf(rest) ensures k in KeysOf(tokens) {
      var i :| 0 <= i < |rest| && KeyOf(rest[i]) == k;
      assert KeyOf(tokens[i + 1]) == k;
    }
  }

  /** Once every token is well formed, the only way to fail is a repeated key,
      reported as `IllegalArgumentException`. */
  lemma {:induction false} ParseIntoWellFormedFailure(acc: map<string, string>, tokens: seq<string>)
    requires AllWellFormed(tokens)
    requires ParseInto(acc, tokens).Failure?
    ensures ParseInto(acc, tokens).error.IllegalArgument?
    decreases |tokens|
  {
    var keyValue := JavaSplit.SplitOn(tokens[0], SEPARATOR);
    if keyValue[0] !in acc {
      assert AllWellFormed(tokens[1..]) by {
        forall i | 0 <= i < |tokens[1..]| ensures WellFormed(tokens[1..][i]) {
          assert tokens[1..][i] == tokens[i + 1];
        }
      }
      ParseIntoWellFormedFailure(acc[keyValue[0] := Unquote(keyValue[1]).value], tokens[1..]);
    }
  }

  /** A key given twice is rejected with `IllegalArgumentException`. */
  lemma DuplicateKeyRejected(tokens: seq<string>, i: nat, j: nat)
    requires AllWellFormed(tokens)
    requires i < j < |tokens| && KeyOf(tokens[i]) == KeyOf(tokens[j])
    ensures Parse(tokens).Failure? && Parse(tokens).error.IllegalArgument?
  {
    assert !DistinctKeys(tokens);
    ParseIntoSucceeds(map[], tokens);
    ParseIntoWellFormedFailure(map[], tokens);
  }

  /** A token whose split yields fewer than two pieces (no `=`, the empty token,
      or a key followed only by `=` signs) makes the whole parse fail. */
  lemma MalformedTokenRejected(tokens: seq<string>, i: nat)
    requires i < |tokens| && |JavaSplit.SplitOn(tokens[i], SEPARATOR)| < 2
    ensures Parse(tokens).Failure?
    ensures AllWellFormed(tokens[..i]) && DistinctKeys(tokens[..i]) && |JavaSplit.SplitOn(tokens[i], SEPARATOR)| == 1 ==>
              Parse(tokens) == Failure(IllegalArgument(INVALID_PARAMETER))
    ensures AllWellFormed(tokens[..i]) && DistinctKeys(tokens[..i]) && |JavaSplit.SplitOn(tokens[i], SEPARATOR)| == 0 ==>
              Parse(tokens) == Failure(ArrayIndexOutOfBounds(0))
  {
    assert !WellFormed(tokens[i]);
    if AllWellFormed(tokens[..i]) && DistinctKeys(tokens[..i]) {
      assert Accepted(map[], tokens[..i]);
      var acc := ParseIntoSkipsAccepted(map[], tokens, i);
      assert tokens[i..][0] == tokens[i];
    }
  }

  /** An accepted prefix is consumed without effect on the outcome other than the
      entries it adds: the loop continues from the token after it. */
  lemma {:induction false} ParseIntoSkipsAccepted(acc: map<string, string>, tokens: seq<string>, i: nat)
    returns (acc': map<string, string>)
    requires i <= |tokens| && Accepted(acc, tokens[..i])
    ensures ParseInto(acc, tokens) == ParseInto(acc', tokens[i..])
    decreases i
  {
    if i == 0 {
      acc' := acc;
      assert tokens[0..] == tokens;
    } else {
      var prefix := tokens[..i];
      AcceptedStep(acc, prefix);
      assert prefix[0] == tokens[0];
      assert prefix[1..] == tokens[1..][..i - 1];
      ParseIntoStep(acc, tokens);
      acc' := ParseIntoSkipsAccepted(acc[KeyOf(tokens[0]) := ValueOf(tokens[0])], tokens[1..], i - 1);
      assert tokens[1..][i - 1..] == tokens[i..];
    }
  }

  /** In a token `key=value` or `key=value=rest` the key is the text before the
      first `=` and the raw value the text up to the second one: whatever follows
      a second `=` is dropped. */
  lemma TokenSegments(key: string, value: string, rest: string)
    requires SEPARATOR !in key && SEPARATOR !in value && value != ""
    requires rest == "" || rest[0] == SEPARATOR
    ensures HasKeyAndValue(key + [SEPARATOR] + value + rest)
    ensures KeyOf(key + [SEPARATOR] + value + rest) == key
    ensures RawValueOf(key + [SEPARATOR] + value + rest) == value
  {
    var t := key + [SEPARATOR] + value + rest;
    assert t[|key|] == SEPARATOR;
    var pieces := JavaSplit.Pieces(t, SEPARATOR);
    if rest == "" {
      assert t == key + [SEPARATOR] + value;
      JavaSplit.PiecesCons(key, value, SEPARATOR);
      JavaSplit.PiecesOfSepFree(value, SEPARATOR);
      assert pieces == [key, value];
    } else {
      var c := rest[1..];
      assert t == key + [SEPARATOR] + (value + [SEPARATOR] + c);
      JavaSplit.PiecesCons(key, value + [SEPARATOR] + c, SEPARATOR);
      JavaSplit.PiecesCons(value, c, SEPARATOR);
      assert pieces[0] == key && pieces[1] == value;
    }
    JavaSplit.DropTrailingEmptyKeeps(pieces, 1);
  }

  // ---------------------------------------------------------------------------
  // Getters

  /** `getValue(key)`: present exactly when the key is configured. */
  function GetValue(c: Configuration, key: string): (r: Option<string>)
    ensures r.Some? <==> key in c.params
    ensures r.Some? ==> r.value == c.params[key]
  {
    if key in c.params then Some(c.params[key]) else None
  }

  /** `getValue(key, defaultValue)`. */
  function GetValueOr(c: Configuration, key: string, default: string): (r: string)
    ensures key !in c.params ==> r == default
    ensures key in c.params ==> r == c.params[key]
  {
    GetValue(c, key).GetOr(default)
  }

  /** `getValueAsInt(key)`: absent gives an empty optional; a present value that is
      not a decimal `int` throws `NumberFormatException`. */
  function GetValueAsInt(c: Configuration, key: string): (r: Result<Option<Int32>, Exception>)
    ensures key !in c.params ==> r == Success(None)
    ensures key in c.params ==> (r.Success? <==> ParseInt(c.params[key]).Success?)
    ensures key in c.params && r.Success? ==> r.value == Some(ParseInt(c.params[key]).value)
    ensures r.Failure? ==> key in c.params && r.error == NumberFormat(c.params[key])
  {
    match GetValue(c, key)
    case None => Success(None)
    case Some(text) =>
      match ParseInt(text)
      case Success(n) => Success(Some(n))
      case Failure(e) => Failure(e)
  }

  /** `getValueAsInt(key, defaultValue)`: the default replaces an absent key only;
      a malformed value still throws. */
  function GetValueAsIntOr(c: Configuration, key: string, default: Int32): (r: Result<Int32, Exception>)
    ensures key !in c.params ==> r == Success(default)
    ensures key in c.params ==> (r.Success? <==> ParseInt(c.params[key]).Success?)
    ensures key in c.params && r.Success? ==> r.value == ParseInt(c.params[key]).value
    ensures r.Failure? ==> key in c.params && r.error == NumberFormat(c.params[key])
  {
    match GetValueAsInt(c, key)
    case Success(v) => Success(v.GetOr(default))
    case Failure(e) => Failure(e)
  }

  /** `getValueAsDouble(key, defaultValue)`, with `Double.parseDouble` supplied as
      `parseDouble`: the default replaces an absent key only. */
  function GetValueAsDoubleOr(c: Configuration, key: string, default: real,
                              parseDouble: string -> Result<real, Exception>): (r: Result<real, Exception>)
    ensures key !in c.params ==> r == Success(default)
    ensures key in c.params ==> r == parseDouble(c.params[key])
  {
    match GetValue(c, key)
    case None => Success(default)
    case Some(text) => parseDouble(text)
  }

  /** `getConfig()`: a read-only view with the same entries `getValue` reads. */
  function GetConfig(c: Configuration): (m: map<string, string>)
    ensures forall key :: GetValue(c, key) == (if key in m then Some(m[key]) else None)
  {
    c.params
  }

  // ---------------------------------------------------------------------------
  // Parser and getters together

  /** An integer written as `key=<decimal>` is read back by `getValueAsInt`,
      whatever default is given. */
  lemma IntSettingRoundTrip(key: string, n: Int32, default: Int32)
    requires SEPARATOR !in key
    ensures Parse([key + [SEPARATOR] + IntToString(n)]).Success?
    ensures GetValueAsIntOr(Parse([key + [SEPARATOR] + IntToString(n)]).value, key, default) == Success(n)
  {
    var text := IntToString(n);
    IntToStringCharacters(n);
    assert SEPARATOR !in text by {
      forall i | 0 <= i < |text| ensures text[i] != SEPARATOR { }
    }
    var token := key + [SEPARATOR] + text;
    TokenSegments(key, text, "");
    assert token + "" == token;
    assert !IsQuoted(text);
    assert ValueOf(token) == text;
    ParseIntOfIntToString(n);
  }

  /** A plain `key=value` token: well formed, with that key and that value. */
  lemma PlainToken(key: string, value: string)
    requires SEPARATOR !in key && SEPARATOR !in value && value != "" && !IsQuoted(value)
    ensures WellFormed(key + [SEPARATOR] + value)
    ensures KeyOf(key + [SEPARATOR] + value) == key && ValueOf(key + [SEPARATOR] + value) == value
  {
    TokenSegments(key, value, "");
    assert key + [SEPARATOR] + value + "" == key + [SEPARATOR] + value;
  }

  /** A key and a value that form a plain `key=value` token. */
  predicate PlainPair(key: string, value: string) {
    SEPARATOR !in key && SEPARATOR !in value && value != "" && !IsQuoted(value)
  }

  /** Three plain tokens with distinct keys parse to their three entries; the
      worked example `a=1 b=true c=0.8` is the instance a, 1, b, true, c, 0.8. */
  lemma ParseThreePlainTokens(k1: string, v1: string, k2: string, v2: string, k3: string, v3: string)
    requires PlainPair(k1, v1) && PlainPair(k2, v2) && PlainPair(k3, v3)
    requires k1 != k2 && k1 != k3 && k2 != k3
    ensures Parse([k1 + [SEPARATOR] + v1, k2 + [SEPARATOR] + v2, k3 + [SEPARATOR] + v3]) ==
              Success(Configuration(map[k1 := v1, k2 := v2, k3 := v3]))
  {
    var t1, t2, t3 := k1 + [SEPARATOR] + v1, k2 + [SEPARATOR] + v2, k3 + [SEPARATOR] + v3;
    var m0: map<string, string> := map[];
    ParseIntoPlain(m0, k1, v1, [t2, t3]);
    assert [t1] + [t2, t3] == [t1, t2, t3];
    ParseIntoPlain(m0[k1 := v1], k2, v2, [t3]);
    assert [t2] + [t3] == [t2, t3];
    ParseIntoPlain(m0[k1 := v1][k2 := v2], k3, v3, []);
    assert [t3] + [] == [t3];
    assert ParseInto(m0, [t1, t2, t3]) == Success(map[k1 := v1, k2 := v2, k3 := v3]);
  }

  /** A plain token with a new key adds its entry and the loop moves on. */
  lemma ParseIntoPlain(acc: map<string, string>, key: string, value: string, rest: seq<string>)
    requires PlainPair(key, value) && key !in acc
    ensures ParseInto(acc, [key + [SEPARATOR] + value] + rest) == ParseInto(acc[key := value], rest)
  {
    var tokens := [key + [SEPARATOR] + value] + rest;
    PlainToken(key, value);
    ParseIntoStep(acc, tokens);
    assert tokens[1..] == rest;
  }

  /** Reading the worked example: `a` as the integer 1, `b` with a default as
      "true", and an absent double as its default. */
  lemma ExampleGetters(parseDouble: string -> Result<real, Exception>)
    ensures var c := Configuration(map["a" := "1", "b" := "true", "c" := "0.8"]);
            && |c.params| == 3
            && GetValueAsIntOr(c, "a", 0) == Success(1)
            && GetValueOr(c, "b", "false") == "true"
            && GetValueAsDoubleOr(c, "missing", 2.5, parseDouble) == Success(2.5)
  {
    var m := map["a" := "1", "b" := "true", "c" := "0.8"];
    assert m.Keys == {"a", "b", "c"};
    assert "missing" !in m;
    assert ParseInt("1") == Success(1);
  }

  /** Tokens rejected as malformed: no `=` at all, the empty token, and a key
      followed by an `=` with nothing after it. */
  lemma MalformedExamples()
    ensures Parse(["novalue"]).Failure? && Parse(["novalue"]).error.IllegalArgument?
    ensures Parse([""]).Failure? && Parse([""]).error.IllegalArgument?
    ensures Parse(["a="]).Failure? && Parse(["a="]).error.IllegalArgument?
  {
    assert SEPARATOR !in "novalue";
    JavaSplit.PiecesCons("a", "", SEPARATOR);
    assert "a" + [SEPARATOR] + "" == "a=";
    assert "a="[1] == SEPARATOR;
  }

  /** A token made of `=` alone splits into nothing, so reading its key throws. */
  lemma SeparatorOnlyExample()
    ensures Parse(["="]) == Failure(ArrayIndexOutOfBounds(0))
  {
    JavaSplit.PiecesCons("", "", SEPARATOR);
    assert "" + [SEPARATOR] + "" == "=";
  }

  /** A lone quote as value passes the quote test, then `substring(1, 0)` throws. */
  lemma LoneQuoteExample()
    ensures Parse(["a='"]) == Failure(StringIndexOutOfBounds(1, 0))
  {
    TokenSegments("a", "'", "");
    assert "a" + [SEPARATOR] + "'" + "" == "a='";
  }

  /** A key repeated in the second token is reported with its name, as in `a=1 a=2`. */
  lemma ParseRepeatedPlainKey(key: string, v1: string, v2: string)
    requires PlainPair(key, v1) && PlainPair(key, v2)
    ensures Parse([key + [SEPARATOR] + v1, key + [SEPARATOR] + v2]) ==
              Failure(IllegalArgument("Duplicated key: " + key))
  {
    var t1, t2 := key + [SEPARATOR] + v1, key + [SEPARATOR] + v2;
    var m0: map<string, string> := map[];
    ParseIntoPlain(m0, key, v1, [t2]);
    assert [t1] + [t2] == [t1, t2];
    PlainToken(key, v2);
    ParseIntoRepeatedKey(m0[key := v1], [t2]);
    assert ParseInto(m0, [t1, t2]) == Failure(IllegalArgument("Duplicated key: " + key));
  }

  /** `a=b=c` keeps `b` and drops `c`. */
  lemma SecondSeparatorExample()
    ensures Parse(["a=b=c"]) == Success(Configuration(map["a" := "b"]))
  {
    TokenSegments("a", "b", "=c");
    assert "a" + [SEPARATOR] + "b" + "=c" == "a=b=c";
    assert !IsQuoted("b");
    ParseIntoStep(map[], ["a=b=c"]);
  }

  /** A quoted value loses exactly its outer quotes, whatever it holds between
      them (spaces included, as in `msg='hello world'`). */
  lemma ParseQuotedToken(key: string, text: string)
    requires SEPARATOR !in key && SEPARATOR !in text
    ensures Parse([key + [SEPARATOR] + [QUOTE] + text + [QUOTE]]) == Success(Configuration(map[key := text]))
  {
    var v := [QUOTE] + text + [QUOTE];
    var t := key + [SEPARATOR] + v;
    assert key + [SEPARATOR] + [QUOTE] + text + [QUOTE] == t;
    assert SEPARATOR !in v by {
      forall k | 0 <= k < |v| ensures v[k] != SEPARATOR {
        if 0 < k < |v| - 1 { assert v[k] == text[k - 1]; }
      }
    }
    TokenSegments(key, v, "");
    assert t + "" == t;
    UnquoteOfQuoted(text);
    ParseIntoStep(map[], [t]);
    assert [t][1..] == [];
  }
}
