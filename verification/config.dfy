/** Configuration loading as pure functions of the environment. The
    environment is a map from variable names to values; an unset variable
    reads as "" (`os.Getenv`). The Go library pieces used here are written
    out: `strings.Split` on ",", `strings.TrimSpace` and `strconv.Atoi` on a
    64-bit platform. */
module Config {
  import opened Results

  type Env = map<string, string>

  datatype DBConfig = DBConfig(host: string, port: int, dbName: string, dbUser: string, password: string)

  datatype RedisConfig = RedisConfig(host: string, port: int, password: string)

  datatype AppConfig = AppConfig(dbConfigs: seq<DBConfig>, redisConfig: RedisConfig)

  function Getenv(env: Env, name: string): string {
    if name in env then env[name] else ""
  }

  // ---------------------------------------------------------------------
  // strings.Split(s, ",")
  // ---------------------------------------------------------------------

  /** The parts joined back with ",", the inverse of `Split`. */
  function Join(parts: seq<string>): string
    requires |parts| > 0
    decreases |parts|
  {
    if |parts| == 1 then parts[0] else parts[0] + "," + Join(parts[1..])
  }

  /** Number of commas in `s`. */
  function Commas(s: string): nat {
    if |s| == 0 then 0 else (if s[0] == ',' then 1 else 0) + Commas(s[1..])
  }

  /** `strings.Split(s, ",")` with no limit: one part more than there are
      commas, none containing a comma; "" splits into [""]. */
  function Split(s: string): (parts: seq<string>)
    ensures |parts| == Commas(s) + 1
    ensures forall i :: 0 <= i < |parts| ==> ',' !in parts[i]
    ensures Join(parts) == s
    decreases |s|
  {
    if |s| == 0 then [""]
    else
      var rest := Split(s[1..]);
      if s[0] == ',' then
        assert Join([""] + rest) == "" + "," + Join(rest) by {
          assert ([""] + rest)[1..] == rest;
        }
        assert s == [s[0]] + s[1..];
        [""] + rest
      else
        var parts := [[s[0]] + rest[0]] + rest[1..];
        assert forall i :: 1 <= i < |parts| ==> parts[i] == rest[i];
        assert Join(parts) == s by {
          if |rest| == 1 {
            assert s == [s[0]] + rest[0];
          } else {
            assert parts[1..] == rest[1..];
            assert Join(rest) == rest[0] + "," + Join(rest[1..]);
            assert s == [s[0]] + s[1..];
          }
        }
        parts
  }

  /** Split on a leading non-comma: it extends the first part. */
  lemma SplitCons(c: char, s: string)
    requires c != ','
    ensures Split([c] + s) == [[c] + Split(s)[0]] + Split(s)[1..]
  {
    assert ([c] + s)[1..] == s;
  }

  /** Split on a leading comma: an empty first part. */
  lemma SplitComma(s: string)
    ensures Split([','] + s) == [""] + Split(s)
  {
    assert ([','] + s)[1..] == s;
  }

  /** Splitting a comma-joined list of comma-free parts gives the parts back. */
  lemma {:induction false} SplitJoin(parts: seq<string>)
    requires |parts| > 0
    requires forall i :: 0 <= i < |parts| ==> ',' !in parts[i]
    ensures Split(Join(parts)) == parts
    decreases |parts|, |parts[0]|
  {
    var p0 := parts[0];
    if |p0| > 0 {
      var parts' := [p0[1..]] + parts[1..];
      assert forall i :: 1 <= i < |parts'| ==> parts'[i] == parts[i];
      assert ',' !in p0[1..] by {
        forall i | 0 <= i < |p0[1..]| ensures p0[1..][i] != ',' {
          assert p0[1..][i] == p0[i + 1];
        }
      }
      SplitJoin(parts');
      assert Join(parts) == [p0[0]] + Join(parts') by {
        assert p0 == [p0[0]] + p0[1..];
        assert parts'[1..] == parts[1..];
      }
      SplitCons(p0[0], Join(parts'));
      assert p0 == [p0[0]] + p0[1..];
      assert parts == [p0] + parts'[1..];
    } else if |parts| > 1 {
      var rest := parts[1..];
      assert forall i :: 0 <= i < |rest| ==> rest[i] == parts[i + 1];
      SplitJoin(rest);
      assert Join(parts) == [','] + Join(rest);
      SplitComma(Join(rest));
      assert parts == [""] + rest;
    }
  }

  // ---------------------------------------------------------------------
  // strings.TrimSpace
  // ---------------------------------------------------------------------

  /** `unicode.IsSpace`: the ASCII white space '\t', '\n', '\v', '\f', '\r',
      ' ', plus U+0085, U+00A0 and the Unicode space separators. */
  predicate IsSpace(c: char) {
    var n := c as int;
    || (0x09 <= n <= 0x0D) || n == 0x20 || n == 0x85 || n == 0xA0
    || n == 0x1680 || (0x2000 <= n <= 0x200A) || n == 0x2028 || n == 0x2029
    || n == 0x202F || n == 0x205F || n == 0x3000
  }

  /** Number of white-space characters at the front of `s`. */
  function LeadingSpaces(s: string): (n: nat)
    ensures n <= |s|
    ensures forall i :: 0 <= i < n ==> IsSpace(s[i])
    ensures n < |s| ==> !IsSpace(s[n])
    decreases |s|
  {
    if |s| > 0 && IsSpace(s[0]) then
      var n := LeadingSpaces(s[1..]);
      assert forall i :: 1 <= i < 1 + n ==> s[i] == s[1..][i - 1];
      1 + n
    else 0
  }

  /** Number of white-space characters at the back of `s`. */
  function TrailingSpaces(s: string): (n: nat)
    ensures n <= |s|
    ensures forall i :: |s| - n <= i < |s| ==> IsSpace(s[i])
    ensures n < |s| ==> !IsSpace(s[|s| - n - 1])
    decreases |s|
  {
    if |s| > 0 && IsSpace(s[|s| - 1]) then
      var n := TrailingSpaces(s[..|s| - 1]);
      assert forall i :: |s| - 1 - n <= i < |s| - 1 ==> s[i] == s[..|s| - 1][i];
      n + 1
    else 0
  }

  /** `strings.TrimSpace`: the infix of `s` left once the white space at both
      ends is cut off; it neither starts nor ends with white space. */
  function TrimSpace(s: string): (r: string)
    ensures LeadingSpaces(s) + |r| <= |s| && r == s[LeadingSpaces(s)..LeadingSpaces(s) + |r|]
    ensures forall i :: LeadingSpaces(s) + |r| <= i < |s| ==> IsSpace(s[i])
    ensures |r| > 0 ==> !IsSpace(r[0]) && !IsSpace(r[|r| - 1])
  {
    var lead := LeadingSpaces(s);
    var rest := s[lead..];
    var trail := TrailingSpaces(rest);
    assert forall i :: 0 <= i < |rest| ==> rest[i] == s[lead + i];
    s[lead..|s| - trail]
  }

  /** Trimming is idempotent. */
  lemma TrimSpaceIdempotent(s: string)
    ensures TrimSpace(TrimSpace(s)) == TrimSpace(s)
  {
    var t := TrimSpace(s);
    if |t| > 0 {
      assert LeadingSpaces(t) == 0;
      assert TrailingSpaces(t[0..]) == 0;
    } else {
      assert LeadingSpaces(t) == 0;
    }
  }

  /** A string of white space trims to "". */
  lemma TrimSpaceOfBlank(s: string)
    requires forall i :: 0 <= i < |s| ==> IsSpace(s[i])
    ensures TrimSpace(s) == ""
  {
    assert LeadingSpaces(s) == |s|;
  }

  // ---------------------------------------------------------------------
  // strconv.Atoi
  // ---------------------------------------------------------------------

  const MinInt64: int := -0x8000_0000_0000_0000
  const MaxInt64: int := 0x7FFF_FFFF_FFFF_FFFF

  predicate IsDigit(c: char) {
    '0' <= c <= '9'
  }

  predicate AllDigits(s: string) {
    forall i :: 0 <= i < |s| ==> IsDigit(s[i])
  }

  /** The value of a string of decimal digits, most significant first. */
  function DigitsValue(s: string): nat
    requires AllDigits(s)
    decreases |s|
  {
    if |s| == 0 then 0
    else DigitsValue(s[..|s| - 1]) * 10 + (s[|s| - 1] as int - '0' as int)
  }

  /** The largest `uint64`, the accumulator bound of `strconv.ParseUint`. */
  const MaxUint64: int := 0xFFFF_FFFF_FFFF_FFFF

  /** A prefix of a digit string is worth at most the whole string. */
  lemma {:induction false} DigitsPrefixMonotone(s: string, k: nat)
    requires AllDigits(s) && k <= |s|
    ensures AllDigits(s[..k]) && DigitsValue(s[..k]) <= DigitsValue(s)
    decreases |s|
  {
    if k < |s| {
      var init := s[..|s| - 1];
      assert init[..k] == s[..k];
      DigitsPrefixMonotone(init, k);
    } else {
      assert s[..k] == s;
    }
  }

  /** Of two runs of leading digits, the shorter is worth at most the longer. */
  lemma PrefixWithin(s: string, k: nat, j: nat)
    requires k <= j <= |s| && AllDigits(s[..j])
    ensures AllDigits(s[..k]) && DigitsValue(s[..k]) <= DigitsValue(s[..j])
  {
    assert s[..j][..k] == s[..k];
    DigitsPrefixMonotone(s[..j], k);
  }

  /** The text after an optional leading sign. */
  function Unsigned(s: string): string {
    if |s| > 0 && (s[0] == '+' || s[0] == '-') then s[1..] else s
  }

  /** The value a leading sign gives the magnitude `u`. */
  function Signed(s: string, u: nat): int {
    if |s| > 0 && s[0] == '-' then -(u as int) else u
  }

  /** Scanning meets a non-digit while every digit before it still fits in a
      `uint64`. */
  predicate SyntaxBeforeOverflow(body: string) {
    exists j :: 0 <= j < |body| && !IsDigit(body[j]) && AllDigits(body[..j]) && DigitsValue(body[..j]) <= MaxUint64
  }

  /** Some run of leading digits is worth more than a `uint64` holds. */
  predicate PrefixOverflows(body: string) {
    exists j :: 0 < j <= |body| && AllDigits(body[..j]) && DigitsValue(body[..j]) > MaxUint64
  }

  /** The outcome of `strconv.ParseUint`'s digit loop. */
  datatype Scan = Scanned(value: nat) | BadDigit | TooLarge

  /** The digit loop of `strconv.ParseUint` in base 10, continuing at index `i`:
      left to right, a non-digit is a syntax error and a digit that takes the
      accumulator past 2^64 - 1 is a range error, whichever comes first. */
  function ScanUint(body: string, i: nat): (r: Scan)
    requires i <= |body| && AllDigits(body[..i]) && DigitsValue(body[..i]) <= MaxUint64
    ensures r.Scanned? <==> AllDigits(body) && DigitsValue(body) <= MaxUint64
    ensures r.Scanned? ==> AllDigits(body) && r.value == DigitsValue(body)
    ensures r.BadDigit? ==> SyntaxBeforeOverflow(body)
    ensures r.TooLarge? ==> PrefixOverflows(body)
    decreases |body| - i
  {
    if i == |body| then
      assert body[..i] == body;
      Scanned(DigitsValue(body))
    else if !IsDigit(body[i]) then
      BadDigit
    else
      assert body[..i + 1][..i] == body[..i];
      assert AllDigits(body[..i + 1]);
      assert AllDigits(body) ==> DigitsValue(body[..i + 1]) <= DigitsValue(body) by {
        if AllDigits(body) { DigitsPrefixMonotone(body, i + 1); }
      }
      if DigitsValue(body[..i + 1]) > MaxUint64 then TooLarge
      else ScanUint(body, i + 1)
  }

  /** `strconv.Atoi` with a 64-bit `int`, by way of `strconv.ParseInt(s, 10, 0)`:
      the empty text and a bare sign are syntax errors; then the digit loop
      decides between a syntax and a range error by which comes first; a
      magnitude that fits a `uint64` but not the signed range is a range error.
      The text succeeds exactly when it is an optional sign, at least one digit
      and a value in the signed 64-bit range. */
  function Atoi(s: string): (r: Result<int, Error>)
    ensures var b := Unsigned(s);
      r.Success? <==> |b| > 0 && AllDigits(b) && MinInt64 <= Signed(s, DigitsValue(b)) <= MaxInt64
    ensures var b := Unsigned(s);
      r.Success? ==> AllDigits(b) && r.value == Signed(s, DigitsValue(b))
    ensures var b := Unsigned(s);
      r == Failure(InvalidSyntax(s)) ==> |b| == 0 || SyntaxBeforeOverflow(b)
    ensures var b := Unsigned(s);
      r == Failure(OutOfRange(s)) ==>
        && |b| > 0
        && ((AllDigits(b) && !(MinInt64 <= Signed(s, DigitsValue(b)) <= MaxInt64)) || PrefixOverflows(b))
    ensures r.Success? ==> MinInt64 <= r.value <= MaxInt64
    ensures r.Failure? ==> r.error == InvalidSyntax(s) || r.error == OutOfRange(s)
  {
    var body := Unsigned(s);
    if |body| == 0 then Failure(InvalidSyntax(s))
    else
      assert body[..0] == [];
      match ScanUint(body, 0)
      case BadDigit => Failure(InvalidSyntax(s))
      case TooLarge => Failure(OutOfRange(s))
      case Scanned(u) =>
        var v := Signed(s, u);
        if v < MinInt64 || v > MaxInt64 then Failure(OutOfRange(s)) else Success(v)
  }

  /** The two ways the digit loop can fail never hold together: the syntax
      and range errors of `Atoi` are decided by the text alone. */
  lemma ScanFailuresExclusive(body: string)
    ensures !(SyntaxBeforeOverflow(body) && PrefixOverflows(body))
  {
    if SyntaxBeforeOverflow(body) && PrefixOverflows(body) {
      var j :| 0 <= j < |body| && !IsDigit(body[j]) && AllDigits(body[..j]) && DigitsValue(body[..j]) <= MaxUint64;
      var k :| 0 < k <= |body| && AllDigits(body[..k]) && DigitsValue(body[..k]) > MaxUint64;
      if k <= j {
        PrefixWithin(body, k, j);
      }
    }
  }

  /** A digit string that fits in a `uint64` meets neither failure. */
  lemma DigitsFit(body: string)
    requires AllDigits(body) && DigitsValue(body) <= MaxUint64
    ensures !SyntaxBeforeOverflow(body) && !PrefixOverflows(body)
  {
    if PrefixOverflows(body) {
      var k :| 0 < k <= |body| && AllDigits(body[..k]) && DigitsValue(body[..k]) > MaxUint64;
      DigitsPrefixMonotone(body, k);
    }
  }

  /** A run of digits too large for a `uint64` makes the text a range error
      whatever follows it, even a non-digit. */
  lemma AtoiOverflowBeforeGarbage(digits: string, rest: string)
    requires AllDigits(digits) && DigitsValue(digits) > MaxUint64
    ensures Atoi(digits + rest) == Failure(OutOfRange(digits + rest))
  {
    var s := digits + rest;
    assert |digits| > 0;
    assert Unsigned(s) == s by { assert IsDigit(s[0]); }
    assert s[..|digits|] == digits;
    assert PrefixOverflows(s);
    ScanFailuresExclusive(s);
    if AllDigits(s) {
      DigitsPrefixMonotone(s, |digits|);
      assert DigitsValue(s) > MaxUint64;
    }
  }

  /** Decimal rendering of a natural number (`strconv.Itoa` for n >= 0). */
  function Digits(n: nat): (s: string)
    ensures |s| > 0 && AllDigits(s)
    decreases n
  {
    var d := [('0' as int + n % 10) as char];
    if n < 10 then d else Digits(n / 10) + d
  }

  lemma {:induction false} DigitsRoundTrip(n: nat)
    ensures DigitsValue(Digits(n)) == n
    decreases n
  {
    var s := Digits(n);
    var d := [('0' as int + n % 10) as char];
    if n >= 10 {
      DigitsRoundTrip(n / 10);
      assert s[..|s| - 1] == Digits(n / 10);
    }
  }

  /** `strconv.Itoa`. */
  function Itoa(n: int): string {
    if n < 0 then "-" + Digits(-n) else Digits(n)
  }

  /** A signed digit string in range parses to its signed value. */
  lemma AtoiAccepts(s: string)
    requires |Unsigned(s)| > 0 && AllDigits(Unsigned(s))
    requires MinInt64 <= Signed(s, DigitsValue(Unsigned(s))) <= MaxInt64
    ensures Atoi(s) == Success(Signed(s, DigitsValue(Unsigned(s))))
  {
  }

  /** Parsing a rendered 64-bit integer gives it back. */
  lemma AtoiItoa(n: int)
    requires MinInt64 <= n <= MaxInt64
    ensures Atoi(Itoa(n)) == Success(n)
  {
    var t := Itoa(n);
    if n < 0 {
      var d := Digits(-n);
      DigitsRoundTrip(-n);
      assert Unsigned(t) == d by { assert t[0] == '-' && t[1..] == d; }
      assert Signed(t, -n) == n by { assert t[0] == '-'; }
    } else {
      DigitsRoundTrip(n);
      assert Unsigned(t) == t by { assert IsDigit(t[0]); }
    }
    AtoiAccepts(t);
  }

  /** The empty string is not a number. */
  lemma AtoiEmptyFails()
    ensures Atoi("") == Failure(InvalidSyntax(""))
  {
  }

  // ---------------------------------------------------------------------
  // loadDBConfigs, loadRedisConfig, Load
  // ---------------------------------------------------------------------

  /** One port entry: trimmed, then parsed. */
  function ParsePort(text: string): (r: Result<int, Error>)
    ensures var t := TrimSpace(text);
      r.Success? <==> |Unsigned(t)| > 0 && AllDigits(Unsigned(t)) && MinInt64 <= Signed(t, DigitsValue(Unsigned(t))) <= MaxInt64
    ensures var t := TrimSpace(text);
      r.Success? ==> AllDigits(Unsigned(t)) && r.value == Signed(t, DigitsValue(Unsigned(t)))
    ensures r.Failure? ==> r.error == InvalidSyntax(TrimSpace(text)) || r.error == OutOfRange(TrimSpace(text))
  {
    Atoi(TrimSpace(text))
  }

  /** Parses every entry in order; the first failure is returned. */
  function ParseAll(texts: seq<string>, parse: string -> Result<int, Error>): (r: Result<seq<int>, Error>)
    ensures r.Success? ==>
      && |r.value| == |texts|
      && forall i :: 0 <= i < |texts| ==> parse(texts[i]) == Success(r.value[i])
    ensures r.Failure? ==>
      exists i :: 0 <= i < |texts|
        && parse(texts[i]) == Failure(r.error)
        && forall j :: 0 <= j < i ==> parse(texts[j]).Success?
    decreases |texts|
  {
    if |texts| == 0 then Success([])
    else
      match parse(texts[0])
      case Failure(e) => Failure(e)
      case Success(p) =>
        var rest := ParseAll(texts[1..], parse);
        assert forall i :: 1 <= i < |texts| ==> texts[i] == texts[1..][i - 1];
        if rest.Failure? then Failure(rest.error) else Success([p] + rest.value)
  }

  /** The port list of `loadDBConfigs`. */
  function ParsePorts(portStrings: seq<string>): (r: Result<seq<int>, Error>)
    ensures r.Success? ==>
      && |r.value| == |portStrings|
      && forall i :: 0 <= i < |portStrings| ==> ParsePort(portStrings[i]) == Success(r.value[i])
  {
    ParseAll(portStrings, ParsePort)
  }

  /** `loadDBConfigs`: split the five lists, parse the ports (failing on the
      first bad one), require equal lengths, and pair the lists up
      position-wise with every text field trimmed. */
  function LoadDBConfigs(env: Env): (r: Result<seq<DBConfig>, Error>)
    ensures var hosts := Split(Getenv(env, "DB_HOST_LIST"));
            var ports := Split(Getenv(env, "DB_PORT_LIST"));
            var names := Split(Getenv(env, "DB_NAME_LIST"));
            var users := Split(Getenv(env, "DB_USER_LIST"));
            var passwords := Split(Getenv(env, "DB_PASSWORD_LIST"));
      && (r.Success? <==>
            && ParsePorts(ports).Success?
            && |hosts| == |ports| == |names| == |users| == |passwords|)
      && (ParsePorts(ports).Failure? ==> r == Failure(ParsePorts(ports).error))
      && (ParsePorts(ports).Success? && r.Failure? ==> r.error == InconsistentLengths)
      && (r.Success? ==>
            && |r.value| == |hosts| >= 1
            && r.value == Assemble(hosts, ParsePorts(ports).value, names, users, passwords))
  {
    var hosts := Split(Getenv(env, "DB_HOST_LIST"));
    var portStrings := Split(Getenv(env, "DB_PORT_LIST"));
    var parsed := ParsePorts(portStrings);
    if parsed.Failure? then Failure(parsed.error)
    else
      var ports := parsed.value;
      var names := Split(Getenv(env, "DB_NAME_LIST"));
      var users := Split(Getenv(env, "DB_USER_LIST"));
      var passwords := Split(Getenv(env, "DB_PASSWORD_LIST"));
      if |hosts| != |ports| || |hosts| != |names| || |hosts| != |users| || |hosts| != |passwords| then
        Failure(InconsistentLengths)
      else
        var configs := Assemble(hosts, ports, names, users, passwords);
        assert |hosts| >= 1;
        Success(configs)
  }

  /** The position-wise pairing of the five lists, text fields trimmed. */
  function Assemble(hosts: seq<string>, ports: seq<int>, names: seq<string>, users: seq<string>, passwords: seq<string>): (r: seq<DBConfig>)
    requires |hosts| == |ports| == |names| == |users| == |passwords|
    ensures |r| == |hosts|
    ensures forall i :: 0 <= i < |r| ==>
      r[i] == DBConfig(TrimSpace(hosts[i]), ports[i], TrimSpace(names[i]), TrimSpace(users[i]), TrimSpace(passwords[i]))
  {
    seq(|hosts|, i requires 0 <= i < |hosts| =>
      DBConfig(TrimSpace(hosts[i]), ports[i], TrimSpace(names[i]), TrimSpace(users[i]), TrimSpace(passwords[i])))
  }

  /** Shard `i` of a loaded configuration takes the i-th entry of every
      list, trimmed; its port is the i-th port entry parsed. */
  lemma LoadedShardConfig(env: Env, i: int)
    requires LoadDBConfigs(env).Success? && 0 <= i < |LoadDBConfigs(env).value|
    ensures var c := LoadDBConfigs(env).value[i];
      && c.host == TrimSpace(Split(Getenv(env, "DB_HOST_LIST"))[i])
      && ParsePort(Split(Getenv(env, "DB_PORT_LIST"))[i]) == Success(c.port)
      && c.dbName == TrimSpace(Split(Getenv(env, "DB_NAME_LIST"))[i])
      && c.dbUser == TrimSpace(Split(Getenv(env, "DB_USER_LIST"))[i])
      && c.password == TrimSpace(Split(Getenv(env, "DB_PASSWORD_LIST"))[i])
  {
  }

  /** An unset port list always fails: it splits into one empty entry. */
  lemma UnsetPortListFails(env: Env)
    requires "DB_PORT_LIST" !in env
    ensures LoadDBConfigs(env) == Failure(InvalidSyntax(""))
  {
    assert Split("") == [""];
    assert TrimSpace("") == "";
  }

  /** `loadRedisConfig`: trimmed values, host defaulting to "localhost" and
      port to "6379" when empty; a non-numeric port is an error. */
  function LoadRedisConfig(env: Env): (r: Result<RedisConfig, Error>)
    ensures var host := TrimSpace(Getenv(env, "REDIS_HOST"));
            var port := TrimSpace(Getenv(env, "REDIS_PORT"));
            var portText := if port == "" then "6379" else port;
      && (r.Success? <==> Atoi(portText).Success?)
      && (r.Failure? ==> r.error == Atoi(portText).error)
      && (r.Success? ==>
            && r.value.host == (if host == "" then "localhost" else host)
            && r.value.port == Atoi(portText).value
            && r.value.password == TrimSpace(Getenv(env, "REDIS_PASSWORD")))
  {
    var host := TrimSpace(Getenv(env, "REDIS_HOST"));
    var portString := TrimSpace(Getenv(env, "REDIS_PORT"));
    var password := TrimSpace(Getenv(env, "REDIS_PASSWORD"));
    var host' := if host == "" then "localhost" else host;
    var portString' := if portString == "" then "6379" else portString;
    match Atoi(portString')
    case Failure(e) => Failure(e)
    case Success(p) => Success(RedisConfig(host', p, password))
  }

  /** With no Redis variables set, the defaults localhost:6379 apply. */
  lemma RedisDefaults(env: Env)
    requires "REDIS_HOST" !in env && "REDIS_PORT" !in env && "REDIS_PASSWORD" !in env
    ensures LoadRedisConfig(env) == Success(RedisConfig("localhost", 6379, ""))
  {
    TrimSpaceOfBlank("");
    DefaultRedisPort();
  }

  /** The default Redis port text parses to 6379. */
  lemma DefaultRedisPort()
    ensures Atoi("6379") == Success(6379)
  {
    assert Itoa(6379) == "6379";
    AtoiItoa(6379);
  }

  /** `Load`: the database configuration first; its error is returned
      without looking at the Redis variables. */
  function Load(env: Env): (r: Result<AppConfig, Error>)
    ensures LoadDBConfigs(env).Failure? ==> r == Failure(LoadDBConfigs(env).error)
    ensures LoadDBConfigs(env).Success? && LoadRedisConfig(env).Failure? ==> r == Failure(LoadRedisConfig(env).error)
    ensures r.Success? <==> LoadDBConfigs(env).Success? && LoadRedisConfig(env).Success?
    ensures r.Success? ==> r.value == AppConfig(LoadDBConfigs(env).value, LoadRedisConfig(env).value)
  {
    match LoadDBConfigs(env)
    case Failure(e) => Failure(e)
    case Success(dbs) =>
      match LoadRedisConfig(env)
      case Failure(e) => Failure(e)
      case Success(redis) => Success(AppConfig(dbs, redis))
  }

  /** A loaded configuration always names at least one shard, so routing
      never divides by zero. */
  lemma LoadedConfigHasAShard(env: Env)
    requires Load(env).Success?
    ensures |Load(env).value.dbConfigs| >= 1
  {
  }
}
