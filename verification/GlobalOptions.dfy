/** The options that every command takes, wherever they stand among its words. */
module GlobalOptions {
  import opened Wrappers
  import opened Texts

  datatype Format = Json | Ndjson

  datatype Backend = LinuxWinboat | WindowsNative | MacNative

  const DEFAULT_TIMEOUT := 300
  const MAX_TIMEOUT := 3600

  const BACKEND_PREFIX := "--backend="
  const TIMEOUT_PREFIX := "--timeout-seconds="

  /** What was given so far: each option at most once, and the words of the command. */
  datatype Given = Given(
    format: Option<Format>, snapshot: bool, backend: Option<Backend>, timeout: Option<nat>, words: seq<string>)

  const NOTHING := Given(None, false, None, None, [])

  datatype Error = Repeated | ValueMissing | UnknownBackend | InvalidTimeout

  datatype Settings = Settings(words: seq<string>, backend: Option<Backend>, format: Format, timeout: nat, snapshot: bool)

  function BackendName(backend: Backend): string {
    match backend
    case LinuxWinboat => "linux-winboat"
    case WindowsNative => "windows-native"
    case MacNative => "mac-native"
  }

  function ParseBackend(text: string): Option<Backend> {
    if text == "linux-winboat" then Some(LinuxWinboat)
    else if text == "windows-native" then Some(WindowsNative)
    else if text == "mac-native" then Some(MacNative)
    else None
  }

  function ParseTimeout(text: string): Option<nat> {
    match ParseU64(text)
    case None => None
    case Some(seconds) => if 1 <= seconds <= MAX_TIMEOUT then Some(seconds) else None
  }

  /** Takes the prefix away as often as it stands there. */
  function StripAll(text: string, prefix: string): string
    requires prefix != ""
    decreases |text|
  {
    if prefix <= text then StripAll(text[|prefix|..], prefix) else text
  }

  function WithFormat(g: Given, format: Format): Result<Given, Error> {
    if g.format.Some? then Err(Repeated) else Ok(g.(format := Some(format)))
  }

  function WithSnapshot(g: Given): Result<Given, Error> {
    if g.snapshot then Err(Repeated) else Ok(g.(snapshot := true))
  }

  function WithBackend(g: Given, text: string): Result<Given, Error> {
    if g.backend.Some? then Err(Repeated)
    else if ParseBackend(text).None? then Err(UnknownBackend)
    else Ok(g.(backend := ParseBackend(text)))
  }

  function WithTimeout(g: Given, text: string): Result<Given, Error> {
    if g.timeout.Some? then Err(Repeated)
    else if ParseTimeout(text).None? then Err(InvalidTimeout)
    else Ok(g.(timeout := ParseTimeout(text)))
  }

  /** The first option or word of the values, and how many of them it takes. */
  function First(values: seq<string>, g: Given): (first: (Result<Given, Error>, nat))
    requires values != []
    ensures first.1 > 0 && (first.0.Ok? ==> first.1 <= |values|)
  {
    var value := values[0];
    if value == "--json" then (WithFormat(g, Json), 1)
    else if value == "--ndjson" then (WithFormat(g, Ndjson), 1)
    else if value == "--snapshot" then (WithSnapshot(g), 1)
    else if value == "--backend" then
      (if g.backend.Some? then Err(Repeated) else if |values| == 1 then Err(ValueMissing) else WithBackend(g, values[1]), 2)
    else if BACKEND_PREFIX <= value then (WithBackend(g, StripAll(value, BACKEND_PREFIX)), 1)
    else if value == "--timeout-seconds" then
      (if g.timeout.Some? then Err(Repeated) else if |values| == 1 then Err(ValueMissing) else WithTimeout(g, values[1]), 2)
    else if TIMEOUT_PREFIX <= value then (WithTimeout(g, StripAll(value, TIMEOUT_PREFIX)), 1)
    else (Ok(g.(words := g.words + [value])), 1)
  }

  function ReadRest(values: seq<string>, g: Given): Result<Given, Error>
    decreases |values|
  {
    if values == [] then Ok(g)
    else
      var (next, used) := First(values, g);
      if next.Err? then next else ReadRest(values[used..], next.value)
  }

  function SettingsOf(g: Given): Settings {
    Settings(g.words, g.backend, if g.format.Some? then g.format.value else Json,
             if g.timeout.Some? then g.timeout.value else DEFAULT_TIMEOUT, g.snapshot)
  }

  /** Takes the option or word at `index`, and moves on. */
  method TakeOne(values: seq<string>, index: nat, given: Given) returns (next: Result<Given, Error>, after: nat)
    requires index < |values|
    ensures (next, after - index) == First(values[index..], given)
  {
    var value := values[index];
    after := index + 1;
    match value {
      case "--json" => next := WithFormat(given, Json);
      case "--ndjson" => next := WithFormat(given, Ndjson);
      case "--snapshot" => next := WithSnapshot(given);
      case "--backend" =>
        after := after + 1;
        if given.backend.Some? {
          return Err(Repeated), after;
        }
        next := if index + 1 == |values| then Err(ValueMissing) else WithBackend(given, values[index + 1]);
      case "--timeout-seconds" =>
        after := after + 1;
        assert value[2] != BACKEND_PREFIX[2];
        if given.timeout.Some? {
          return Err(Repeated), after;
        }
        next := if index + 1 == |values| then Err(ValueMissing) else WithTimeout(given, values[index + 1]);
      case _ =>
        if BACKEND_PREFIX <= value {
          next := WithBackend(given, StripAll(value, BACKEND_PREFIX));
        } else if TIMEOUT_PREFIX <= value {
          next := WithTimeout(given, StripAll(value, TIMEOUT_PREFIX));
        } else {
          next := Ok(given.(words := given.words + [value]));
        }
    }
  }

  /** Separates the global options from the words of the command. */
  method ParseGlobals(values: seq<string>) returns (result: Result<Settings, Error>)
    ensures result == match ReadRest(values, NOTHING) case Err(e) => Err(e) case Ok(g) => Ok(SettingsOf(g))
  {
    var given := NOTHING;
    var index := 0;
    while index < |values|
      invariant 0 <= index <= |values|
      invariant ReadRest(values, NOTHING) == ReadRest(values[index..], given)
    {
      var next, after := TakeOne(values, index, given);
      if next.Err? {
        return Err(next.error);
      }
      assert values[index..][after - index..] == values[after..];
      given := next.value;
      index := after;
    }
    result := Ok(SettingsOf(given));
  }

  // Options anywhere among the words

  /** One piece of a command line: a word of the command, or a global option. */
  datatype Token =
    | Word(text: string)
    | FormatFlag(format: Format)
    | SnapshotFlag
    | BackendOption(value: string, joined: bool)
    | TimeoutOption(value: string, joined: bool)

  function Written(t: Token): seq<string> {
    match t
    case Word(text) => [text]
    case FormatFlag(format) => [if format.Json? then "--json" else "--ndjson"]
    case SnapshotFlag => ["--snapshot"]
    case BackendOption(value, joined) => if joined then ["--backend=" + value] else ["--backend", value]
    case TimeoutOption(value, joined) => if joined then ["--timeout-seconds=" + value] else ["--timeout-seconds", value]
  }

  function Render(tokens: seq<Token>): seq<string> {
    if tokens == [] then [] else Written(tokens[0]) + Render(tokens[1..])
  }

  /** A word is no global option itself. Values of options may be anything. */
  predicate IsPlain(t: Token) {
    match t
    case Word(text) =>
      && text != "--json" && text != "--ndjson" && text != "--snapshot" && text != "--backend" && text != "--timeout-seconds"
      && !("--backend=" <= text) && !("--timeout-seconds=" <= text)
    case _ => true
  }

  /** The value that is read: a joined one loses the prefix as often as it begins with it. */
  function Meant(t: Token): string {
    match t
    case BackendOption(value, joined) => if joined then StripAll(value, BACKEND_PREFIX) else value
    case TimeoutOption(value, joined) => if joined then StripAll(value, TIMEOUT_PREFIX) else value
    case _ => ""
  }

  predicate ArePlain(tokens: seq<Token>) {
    forall t <- tokens :: IsPlain(t)
  }

  /** What one token adds. */
  function With(g: Given, t: Token): Result<Given, Error> {
    match t
    case Word(text) => Ok(g.(words := g.words + [text]))
    case FormatFlag(format) => WithFormat(g, format)
    case SnapshotFlag => WithSnapshot(g)
    case BackendOption(_, _) => WithBackend(g, Meant(t))
    case TimeoutOption(_, _) => WithTimeout(g, Meant(t))
  }

  lemma StripOnce(prefix: string, value: string)
    requires prefix != ""
    ensures StripAll(prefix + value, prefix) == StripAll(value, prefix) && prefix <= prefix + value
  {
    assert (prefix + value)[|prefix|..] == value;
  }

  lemma OneToken(t: Token, rest: seq<string>, g: Given)
    requires IsPlain(t)
    ensures ReadRest(Written(t) + rest, g) == if With(g, t).Err? then With(g, t) else ReadRest(rest, With(g, t).value)
  {
    var values := Written(t) + rest;
    assert values[|Written(t)|..] == rest;
    match t
    case BackendOption(value, joined) =>
      StripOnce(BACKEND_PREFIX, value);
      BackendSpellings(value);
    case TimeoutOption(value, joined) =>
      StripOnce(TIMEOUT_PREFIX, value);
      TimeoutSpellings(value);
    case _ =>
  }

  lemma BackendSpellings(value: string)
    ensures var text := BACKEND_PREFIX + value;
            text != "--json" && text != "--ndjson" && text != "--snapshot" && text != "--backend"
  {
    var text := BACKEND_PREFIX + value;
    assert text[2] == 'b' && |text| >= 10;
  }

  lemma TimeoutSpellings(value: string)
    ensures var text := TIMEOUT_PREFIX + value;
            text != "--json" && text != "--ndjson" && text != "--snapshot" && text != "--backend" && text != "--timeout-seconds"
            && !(BACKEND_PREFIX <= text)
  {
    var text := TIMEOUT_PREFIX + value;
    assert text[2] == 't' && |text| >= 18;
  }

  function Words(tokens: seq<Token>): seq<string> {
    if tokens == [] then []
    else if tokens[0].Word? then [tokens[0].text] + Words(tokens[1..])
    else Words(tokens[1..])
  }

  function Same(a: Token, b: Token): bool {
    (a.FormatFlag? && b.FormatFlag?) || (a.SnapshotFlag? && b.SnapshotFlag?)
    || (a.BackendOption? && b.BackendOption?) || (a.TimeoutOption? && b.TimeoutOption?)
  }

  predicate ValueOk(t: Token) {
    && (t.BackendOption? ==> ParseBackend(Meant(t)).Some?)
    && (t.TimeoutOption? ==> ParseTimeout(Meant(t)).Some?)
  }

  /** What `g` already has, of the kind of `t`. */
  predicate Has(g: Given, t: Token) {
    match t
    case Word(_) => false
    case FormatFlag(_) => g.format.Some?
    case SnapshotFlag => g.snapshot
    case BackendOption(_, _) => g.backend.Some?
    case TimeoutOption(_, _) => g.timeout.Some?
  }

  /** Every option is given once, with a value it takes. */
  predicate Acceptable(tokens: seq<Token>, g: Given) {
    && (forall i, j | 0 <= i < j < |tokens| :: !Same(tokens[i], tokens[j]))
    && (forall t <- tokens :: !Has(g, t) && ValueOk(t))
  }

  /** `after` shows the option as the token gives it. */
  predicate Shows(after: Given, t: Token) {
    match t
    case Word(_) => true
    case FormatFlag(format) => after.format == Some(format)
    case SnapshotFlag => after.snapshot
    case BackendOption(_, _) => after.backend.Some? && after.backend == ParseBackend(Meant(t))
    case TimeoutOption(_, _) => after.timeout.Some? && after.timeout == ParseTimeout(Meant(t))
  }

  /** The two agree on the option that the token is about. */
  predicate Agree(a: Given, b: Given, t: Token) {
    match t
    case Word(_) => true
    case FormatFlag(_) => a.format == b.format
    case SnapshotFlag => a.snapshot == b.snapshot
    case BackendOption(_, _) => a.backend == b.backend
    case TimeoutOption(_, _) => a.timeout == b.timeout
  }

  /** What is given after all tokens. */
  function Collected(tokens: seq<Token>, g: Given): Result<Given, Error> {
    if tokens == [] then Ok(g)
    else if With(g, tokens[0]).Err? then With(g, tokens[0])
    else Collected(tokens[1..], With(g, tokens[0]).value)
  }

  lemma FirstWordIsKept(tokens: seq<Token>, g: Given) returns (next: Given)
    requires tokens != [] && Collected(tokens, g).Ok?
    ensures Collected(tokens[1..], next) == Collected(tokens, g)
    ensures next.words + Words(tokens[1..]) == g.words + Words(tokens)
  {
    next := With(g, tokens[0]).value;
    if tokens[0].Word? {
      assert (g.words + [tokens[0].text]) + Words(tokens[1..]) == g.words + ([tokens[0].text] + Words(tokens[1..]));
    }
  }

  lemma {:induction false} WordsAreKept(tokens: seq<Token>, g: Given)
    requires Collected(tokens, g).Ok?
    ensures Collected(tokens, g).value.words == g.words + Words(tokens)
  {
    if tokens != [] {
      var next := FirstWordIsKept(tokens, g);
      WordsAreKept(tokens[1..], next);
    }
  }

  /** An option that no token gives stays as it was. */
  lemma {:induction false} OthersAreKept(tokens: seq<Token>, g: Given, u: Token)
    requires Collected(tokens, g).Ok? && forall t <- tokens :: !Same(u, t)
    ensures Agree(g, Collected(tokens, g).value, u)
  {
    if tokens != [] {
      assert !Same(u, tokens[0]);
      OthersAreKept(tokens[1..], With(g, tokens[0]).value, u);
    }
  }

  /** An option that a token gives is as that token gives it. */
  lemma {:induction false} OptionsAreTaken(tokens: seq<Token>, g: Given, t: Token)
    requires Collected(tokens, g).Ok? && Acceptable(tokens, g) && t in tokens
    ensures Shows(Collected(tokens, g).value, t)
  {
    var tail, next := tokens[1..], With(g, tokens[0]).value;
    NextAcceptable(tokens, g);
    if t in tail {
      OptionsAreTaken(tail, next, t);
    } else {
      forall other <- tail ensures !Same(t, other) {
        var k :| 0 <= k < |tail| && tail[k] == other;
        assert !Same(tokens[0], tokens[k + 1]);
      }
      OthersAreKept(tail, next, t);
    }
  }

  lemma NextAcceptable(tokens: seq<Token>, g: Given)
    requires tokens != []
    ensures Acceptable(tokens, g) <==> With(g, tokens[0]).Ok? && Acceptable(tokens[1..], With(g, tokens[0]).value)
  {
    var tail := tokens[1..];
    assert forall k | 1 <= k < |tokens| :: tokens[k] == tail[k - 1];
    assert With(g, tokens[0]).Ok? <==> !Has(g, tokens[0]) && ValueOk(tokens[0]);
    if With(g, tokens[0]).Ok? {
      var next := With(g, tokens[0]).value;
      assert forall t: Token :: Has(next, t) <==> Has(g, t) || Same(tokens[0], t);
      if Acceptable(tail, next) {
        forall i, j | 0 <= i < j < |tokens| ensures !Same(tokens[i], tokens[j]) {
          assert tokens[j] == tail[j - 1] && tail[j - 1] in tail;
          if i > 0 {
            assert tokens[i] == tail[i - 1];
          }
        }
      }
      if Acceptable(tokens, g) {
        forall t <- tail ensures !Has(next, t) {
          var k :| 0 <= k < |tail| && tail[k] == t;
          assert !Same(tokens[0], tokens[k + 1]);
        }
      }
    }
  }

  lemma {:induction false} ReadingCollects(tokens: seq<Token>, g: Given)
    requires ArePlain(tokens)
    ensures ReadRest(Render(tokens), g) == Collected(tokens, g)
    ensures Collected(tokens, g).Ok? <==> Acceptable(tokens, g)
  {
    if tokens != [] {
      OneToken(tokens[0], Render(tokens[1..]), g);
      NextAcceptable(tokens, g);
      if With(g, tokens[0]).Ok? {
        ReadingCollects(tokens[1..], With(g, tokens[0]).value);
      }
    }
  }

  /** A command line, with any values for its options, is accepted exactly when every global
      option is given at most once with a value that is valid as it is read. Then the command is left with its own words in their own
      order, wherever the options stood, and each option is as given, or else unset. */
  lemma OptionsAnywhere(tokens: seq<Token>)
    requires ArePlain(tokens)
    ensures var read := ReadRest(Render(tokens), NOTHING);
            && (read.Ok? <==> Acceptable(tokens, NOTHING))
            && (read.Ok? ==>
                  && read.value.words == Words(tokens)
                  && (forall t <- tokens :: Shows(read.value, t))
                  && (forall u: Token :: (forall t <- tokens :: !Same(u, t)) ==> Agree(NOTHING, read.value, u)))
  {
    ReadingCollects(tokens, NOTHING);
    if Acceptable(tokens, NOTHING) {
      WordsAreKept(tokens, NOTHING);
      assert NOTHING.words + Words(tokens) == Words(tokens);
      forall t <- tokens ensures Shows(Collected(tokens, NOTHING).value, t) {
        OptionsAreTaken(tokens, NOTHING, t);
      }
      forall u: Token | forall t <- tokens :: !Same(u, t) ensures Agree(NOTHING, Collected(tokens, NOTHING).value, u) {
        OthersAreKept(tokens, NOTHING, u);
      }
    }
  }

  /** A backend is named exactly by its own name. */
  lemma BackendsReadBack(text: string, backend: Backend)
    ensures ParseBackend(text) == Some(backend) <==> text == BackendName(backend)
  {
    assert "linux-winboat"[0] == 'l' && "windows-native"[0] == 'w' && "mac-native"[0] == 'm';
  }

  /** A time limit is digits with an optional plus sign, from 1 to 3600. */
  ghost predicate IsTimeout(text: string, seconds: nat) {
    exists sign: string, digits: string {:trigger sign + digits} ::
      && text == sign + digits && (sign == "" || sign == "+")
      && AllDigits(digits) && DecimalValue(digits) == seconds && 1 <= seconds <= 3600
  }

  lemma TimeoutsAreReadExactly(text: string, seconds: nat)
    ensures ParseTimeout(text) == Some(seconds) <==> IsTimeout(text, seconds)
  {
    if ParseTimeout(text) == Some(seconds) {
      var signed := text != "" && text[0] == '+';
      assert text == (if signed then "+" else "") + (if signed then text[1..] else text);
    }
    if IsTimeout(text, seconds) {
      var sign: string, digits: string :|
        && text == sign + digits && (sign == "" || sign == "+")
        && AllDigits(digits) && DecimalValue(digits) == seconds && 1 <= seconds <= 3600;
      if sign == "" {
        assert text == digits && IsDigit(text[0]);
      } else {
        assert text[0] == '+' && text[1..] == digits;
      }
    }
  }

  /** A printed number of seconds is taken exactly from 1 to 3600. */
  lemma TimeoutsReadBack(seconds: nat)
    ensures ParseTimeout(Decimal(seconds)) == if 1 <= seconds <= 3600 then Some(seconds) else None
  {
    DecimalReadsBack(seconds);
    assert IsDigit(Decimal(seconds)[0]);
  }

  // What is settled in the end

  /** Each setting is as some option gives it, or else the default: JSON, no snapshot, the
      backend of the platform, and 300 seconds. */
  lemma SettingsAreAsGiven(tokens: seq<Token>)
    requires ArePlain(tokens) && Acceptable(tokens, NOTHING)
    ensures ReadRest(Render(tokens), NOTHING).Ok?
    ensures var s := SettingsOf(ReadRest(Render(tokens), NOTHING).value);
            && s.words == Words(tokens)
            && (s.format == Ndjson <==> FormatFlag(Ndjson) in tokens)
            && (s.snapshot <==> SnapshotFlag in tokens)
            && (forall t <- tokens :: t.TimeoutOption? ==> ParseTimeout(Meant(t)) == Some(s.timeout))
            && ((forall t <- tokens :: !t.TimeoutOption?) ==> s.timeout == 300)
            && (forall t <- tokens :: t.BackendOption? ==> s.backend.Some? && Meant(t) == BackendName(s.backend.value))
            && ((forall t <- tokens :: !t.BackendOption?) ==> s.backend == None)
  {
    OptionsAnywhere(tokens);
    var g := ReadRest(Render(tokens), NOTHING).value;
    FormatIsAsGiven(tokens, g);
    forall t <- tokens | t.BackendOption? ensures g.backend.Some? && Meant(t) == BackendName(g.backend.value) {
      assert Shows(g, t);
      BackendsReadBack(Meant(t), g.backend.value);
    }
    if forall t <- tokens :: !t.TimeoutOption? {
      assert Agree(NOTHING, g, TimeoutOption("", true));
    }
    if forall t <- tokens :: !t.BackendOption? {
      assert Agree(NOTHING, g, BackendOption("", true));
    }
    if SnapshotFlag !in tokens {
      assert Agree(NOTHING, g, SnapshotFlag);
    }
  }

  lemma FormatIsAsGiven(tokens: seq<Token>, g: Given)
    requires forall t <- tokens :: Shows(g, t)
    requires forall u: Token :: (forall t <- tokens :: !Same(u, t)) ==> Agree(NOTHING, g, u)
    ensures SettingsOf(g).format == Ndjson <==> FormatFlag(Ndjson) in tokens
  {
    if forall t <- tokens :: !t.FormatFlag? {
      assert Agree(NOTHING, g, FormatFlag(Json));
    } else {
      var t :| t in tokens && t.FormatFlag?;
      assert Shows(g, t);
    }
  }

  // What is reported

  lemma FirstTokenIsRead(tokens: seq<Token>, rest: seq<string>, g: Given) returns (next: Given)
    requires tokens != [] && ArePlain(tokens) && Acceptable(tokens, g)
    ensures ArePlain(tokens[1..]) && Acceptable(tokens[1..], next)
    ensures Collected(tokens[1..], next) == Collected(tokens, g)
    ensures ReadRest(Render(tokens) + rest, g) == ReadRest(Render(tokens[1..]) + rest, next)
  {
    NextAcceptable(tokens, g);
    next := With(g, tokens[0]).value;
    OneToken(tokens[0], Render(tokens[1..]) + rest, g);
    assert Render(tokens) + rest == Written(tokens[0]) + (Render(tokens[1..]) + rest);
  }

  lemma {:induction false} ThenTheRestIsRead(tokens: seq<Token>, rest: seq<string>, g: Given)
    requires ArePlain(tokens) && Acceptable(tokens, g)
    ensures Collected(tokens, g).Ok? && ReadRest(Render(tokens) + rest, g) == ReadRest(rest, Collected(tokens, g).value)
  {
    if tokens == [] {
      assert Render(tokens) + rest == rest;
    } else {
      var next := FirstTokenIsRead(tokens, rest, g);
      ThenTheRestIsRead(tokens[1..], rest, next);
    }
  }

  /** An option is given exactly if some token gave it. */
  lemma GivenByThose(tokens: seq<Token>, t: Token)
    requires ArePlain(tokens) && Acceptable(tokens, NOTHING) && Collected(tokens, NOTHING).Ok?
    ensures Has(Collected(tokens, NOTHING).value, t) <==> exists other <- tokens :: Same(t, other)
  {
    if other :| other in tokens && Same(t, other) {
      OptionsAreTaken(tokens, NOTHING, other);
    } else {
      OthersAreKept(tokens, NOTHING, t);
    }
  }

  /** The first token that is not acceptable decides what is reported: an option given before
      is repeated, and otherwise it is the value that is at fault. */
  lemma FirstFaultIsReported(tokens: seq<Token>, t: Token, later: seq<string>)
    requires ArePlain(tokens) && Acceptable(tokens, NOTHING) && IsPlain(t)
    requires !ValueOk(t) || exists other <- tokens :: Same(t, other)
    ensures ReadRest(Render(tokens) + (Written(t) + later), NOTHING)
         == Err(if exists other <- tokens :: Same(t, other) then Repeated
                else if t.BackendOption? then UnknownBackend else InvalidTimeout)
  {
    ThenTheRestIsRead(tokens, Written(t) + later, NOTHING);
    GivenByThose(tokens, t);
    OneToken(t, later, Collected(tokens, NOTHING).value);
  }

  /** An option that takes a value but is the last word of the line is reported as such,
      unless it was given before. */
  lemma MissingValueIsReported(tokens: seq<Token>)
    requires ArePlain(tokens) && Acceptable(tokens, NOTHING)
    ensures ReadRest(Render(tokens) + ["--backend"], NOTHING)
         == Err(if exists t <- tokens :: t.BackendOption? then Repeated else ValueMissing)
    ensures ReadRest(Render(tokens) + ["--timeout-seconds"], NOTHING)
         == Err(if exists t <- tokens :: t.TimeoutOption? then Repeated else ValueMissing)
  {
    ThenTheRestIsRead(tokens, ["--backend"], NOTHING);
    ThenTheRestIsRead(tokens, ["--timeout-seconds"], NOTHING);
    GivenByThose(tokens, BackendOption("", true));
    GivenByThose(tokens, TimeoutOption("", true));
    assert "--timeout-seconds"[2] != BACKEND_PREFIX[2];
    assert !(BACKEND_PREFIX <= "--timeout-seconds");
  }

  // The two spellings of a value

  lemma PrefixedNamesNothing(value: string)
    ensures BACKEND_PREFIX <= value ==> ParseBackend(value).None?
    ensures TIMEOUT_PREFIX <= value ==> ParseTimeout(value).None?
  {
    if BACKEND_PREFIX <= value {
      assert value[0] == BACKEND_PREFIX[0] && "linux-winboat"[0] == 'l' && "windows-native"[0] == 'w' && "mac-native"[0] == 'm';
    }
    if TIMEOUT_PREFIX <= value {
      assert value[0] == TIMEOUT_PREFIX[0] && !IsDigit('-');
    }
  }

  /** Where no backend is given yet, both spellings of a backend read alike exactly unless the
      value begins with the prefix and what is left of it without any is a backend: that one
      only the joined spelling takes. */
  lemma BackendSpellingsAgreeExactly(value: string, g: Given)
    requires g.backend.None?
    ensures ReadRest(Written(BackendOption(value, true)), g) == ReadRest(Written(BackendOption(value, false)), g)
       <==> !(BACKEND_PREFIX <= value && ParseBackend(StripAll(value, BACKEND_PREFIX)).Some?)
  {
    OneOption(BackendOption(value, true), g);
    OneOption(BackendOption(value, false), g);
    PrefixedNamesNothing(value);
  }

  /** The same for the time limit. */
  lemma TimeoutSpellingsAgreeExactly(value: string, g: Given)
    requires g.timeout.None?
    ensures ReadRest(Written(TimeoutOption(value, true)), g) == ReadRest(Written(TimeoutOption(value, false)), g)
       <==> !(TIMEOUT_PREFIX <= value && ParseTimeout(StripAll(value, TIMEOUT_PREFIX)).Some?)
  {
    OneOption(TimeoutOption(value, true), g);
    OneOption(TimeoutOption(value, false), g);
    PrefixedNamesNothing(value);
  }

  lemma OneOption(t: Token, g: Given)
    requires IsPlain(t)
    ensures ReadRest(Written(t), g) == With(g, t)
  {
    OneToken(t, [], g);
    assert Written(t) + [] == Written(t);
  }

  /** `text` with the prefix put before it `count` times. */
  function Prefixed(prefix: string, text: string, count: nat): string {
    if count == 0 then text else prefix + Prefixed(prefix, text, count - 1)
  }

  lemma {:induction false} StripAllUndoes(prefix: string, text: string, count: nat)
    requires prefix != "" && !(prefix <= text)
    ensures StripAll(Prefixed(prefix, text, count), prefix) == text
    decreases count
  {
    if count > 0 {
      StripOnce(prefix, Prefixed(prefix, text, count - 1));
      StripAllUndoes(prefix, text, count - 1);
    }
  }

  /** Such values exist for every backend and every time limit: any number of prefixes too
      many is taken. */
  lemma RepeatedPrefixesAreAccepted(backend: Backend, seconds: nat, count: nat)
    requires 1 <= seconds <= MAX_TIMEOUT
    ensures ReadRest(Written(BackendOption(Prefixed(BACKEND_PREFIX, BackendName(backend), count), true)), NOTHING)
         == Ok(NOTHING.(backend := Some(backend)))
    ensures ReadRest(Written(TimeoutOption(Prefixed(TIMEOUT_PREFIX, Decimal(seconds), count), true)), NOTHING)
         == Ok(NOTHING.(timeout := Some(seconds)))
  {
    var name, number := BackendName(backend), Decimal(seconds);
    assert name[0] != BACKEND_PREFIX[0];
    assert IsDigit(number[0]) && number[0] != TIMEOUT_PREFIX[0];
    StripAllUndoes(BACKEND_PREFIX, name, count);
    StripAllUndoes(TIMEOUT_PREFIX, number, count);
    BackendsReadBack(name, backend);
    TimeoutsReadBack(seconds);
    OneOption(BackendOption(Prefixed(BACKEND_PREFIX, name, count), true), NOTHING);
    OneOption(TimeoutOption(Prefixed(TIMEOUT_PREFIX, number, count), true), NOTHING);
  }
}
