/** `register/api/config.php`: the `.env` loader as a fold over lines, the
    configuration constants with their defaults, `sanitizeInput` and
    `verifySecurityCode`. */
module Config {
  import opened Wrappers
  import opened Text
  import Html

  /** What one `.env` line does to the environment. */
  datatype LineEffect = Skip | Assign(name: string, value: string)

  predicate IsQuote(c: char) { c == '"' || c == '\'' }

  /** The value starts and ends with the same quote character (a lone quote counts). */
  predicate Quoted(v: string) {
    |v| > 0 && IsQuote(v[0]) && v[|v| - 1] == v[0]
  }

  /** Removes one pair of surrounding double or single quotes, the way
      `substr($value, 1, -1)` does; a lone quote becomes the empty string. */
  function Unquote(v: string): (r: string)
    ensures Quoted(v) && |v| >= 2 ==> v == [v[0]] + r + [v[0]]
    ensures Quoted(v) && |v| == 1 ==> r == ""
    ensures !Quoted(v) ==> r == v
  {
    if Quoted(v) then (if |v| == 1 then "" else v[1..|v| - 1]) else v
  }

  /** The trimmed line starts with `#`. */
  predicate IsComment(line: string) {
    var t := Trim(line);
    |t| > 0 && t[0] == '#'
  }

  function ParseLine(line: string): (r: LineEffect)
    ensures IsComment(line) || '=' !in line ==> r == Skip
    ensures r.Assign? ==> '=' !in r.name && Trim(r.name) == r.name
  {
    if IsComment(line) then Skip
    else
      match SplitFirst(line, '=')
      case None => Skip
      case Some((n, v)) =>
        var name := Trim(n);
        TrimIdempotent(n);
        Assign(name, Unquote(Trim(v)))
  }

  /** The message of the error `putenv` raises for an assignment with an empty name. */
  const PutenvError := "putenv(): Argument #1 ($assignment) must have a valid syntax"

  /** The effects of the lines, in order. */
  function Effects(lines: seq<string>): (r: seq<LineEffect>)
    ensures |r| == |lines|
  {
    seq(|lines|, i requires 0 <= i < |lines| => ParseLine(lines[i]))
  }

  /** The `foreach` of `loadEnv` over line effects, starting from the process
      environment `env`; an empty name makes `putenv` throw. */
  function Apply(effects: seq<LineEffect>, env: map<string, string>): (r: Result<map<string, string>, string>)
    ensures r.Ok? ==> env.Keys <= r.value.Keys
  {
    if effects == [] then Ok(env)
    else
      match effects[0]
      case Skip => Apply(effects[1..], env)
      case Assign(n, v) =>
        if n == "" then Err(PutenvError) else Apply(effects[1..], env[n := v])
  }

  function LoadLines(lines: seq<string>, env: map<string, string>): Result<map<string, string>, string> {
    Apply(Effects(lines), env)
  }

  /** `loadEnv()`: a missing file leaves the environment as it is. */
  function LoadEnv(file: Option<seq<string>>, env: map<string, string>): Result<map<string, string>, string> {
    match file
    case None => Ok(env)
    case Some(lines) => LoadLines(lines, env)
  }

  predicate Assigns(e: LineEffect, n: string) {
    e.Assign? && e.name == n
  }

  /** A name no line assigns keeps its value from the process environment. */
  lemma {:induction false} UnassignedKept(effects: seq<LineEffect>, env: map<string, string>, n: string)
    requires Apply(effects, env).Ok?
    requires forall j | 0 <= j < |effects| :: !Assigns(effects[j], n)
    ensures n in Apply(effects, env).value <==> n in env
    ensures n in env ==> Apply(effects, env).value[n] == env[n]
  {
    if effects != [] {
      assert !Assigns(effects[0], n);
      match effects[0]
      case Skip => UnassignedKept(effects[1..], env, n);
      case Assign(m, v) => UnassignedKept(effects[1..], env[m := v], n);
    }
  }

  /** Last assignment wins: a name ends up with the value of the last line assigning it. */
  lemma {:induction false} LastAssignmentWins(effects: seq<LineEffect>, env: map<string, string>, i: nat)
    requires Apply(effects, env).Ok?
    requires i < |effects| && effects[i].Assign?
    requires forall j | i < j < |effects| :: !Assigns(effects[j], effects[i].name)
    ensures effects[i].name in Apply(effects, env).value
    ensures Apply(effects, env).value[effects[i].name] == effects[i].value
  {
    var n := effects[i].name;
    var rest := effects[1..];
    if i == 0 {
      var v := effects[0].value;
      forall j | 0 <= j < |rest| ensures !Assigns(rest[j], n) {
        assert rest[j] == effects[j + 1];
      }
      UnassignedKept(rest, env[n := v], n);
    } else {
      assert rest[i - 1] == effects[i];
      forall j | i - 1 < j < |rest| ensures !Assigns(rest[j], n) {
        assert rest[j] == effects[j + 1];
      }
      match effects[0]
      case Skip => LastAssignmentWins(rest, env, i - 1);
      case Assign(m, v) => LastAssignmentWins(rest, env[m := v], i - 1);
    }
  }

  /** Comment lines and lines without `=` change nothing, wherever they stand. */
  lemma IgnoredLine(before: seq<string>, line: string, after: seq<string>, env: map<string, string>)
    requires IsComment(line) || '=' !in line
    ensures LoadLines(before + [line] + after, env) == LoadLines(before + after, env)
  {
    EffectsAppend(before + [line], after);
    EffectsAppend(before, [line]);
    EffectsAppend(before, after);
    assert Effects([line]) == [Skip];
    SkipIgnored(Effects(before), Effects(after), env);
  }

  lemma EffectsAppend(a: seq<string>, b: seq<string>)
    ensures Effects(a + b) == Effects(a) + Effects(b)
  {
    forall i | 0 <= i < |a + b|
      ensures Effects(a + b)[i] == (Effects(a) + Effects(b))[i]
    {
      if i >= |a| {
        assert (a + b)[i] == b[i - |a|];
      }
    }
  }

  lemma {:induction false} SkipIgnored(pre: seq<LineEffect>, post: seq<LineEffect>, env: map<string, string>)
    ensures Apply(pre + [Skip] + post, env) == Apply(pre + post, env)
  {
    if pre == [] {
      assert pre + [Skip] + post == [Skip] + post;
      assert ([Skip] + post)[1..] == post;
      assert pre + post == post;
    } else {
      assert (pre + [Skip] + post)[0] == pre[0];
      assert (pre + [Skip] + post)[1..] == pre[1..] + [Skip] + post;
      assert (pre + post)[0] == pre[0];
      assert (pre + post)[1..] == pre[1..] + post;
      match pre[0]
      case Skip => SkipIgnored(pre[1..], post, env);
      case Assign(n, v) =>
        if n != "" {
          SkipIgnored(pre[1..], post, env[n := v]);
        }
    }
  }

  /** `explode('=', $line, 2)` cuts at the first `=`: whatever the value
      holds, the part before the cut has no `=`. */
  lemma SplitAtFirst(n: string, w: string)
    requires '=' !in n
    ensures SplitFirst(n + "=" + w, '=') == Some((n, w))
  {
    var line := n + "=" + w;
    assert line == n + ['='] + w;
    var k := IndexOf(line, '=').value;
    assert line[|n|] == '=';
    assert k == |n|;
    assert line[..k] == n;
    assert line[k + 1..] == w;
  }

  /** A line starting with a name is neither a comment nor split anywhere but
      after the name. */
  lemma SplitAfterName(n: string, w: string)
    requires n != [] && !IsPhpSpace(n[0]) && n[0] != '#' && '=' !in n
    ensures !IsComment(n + "=" + w)
    ensures SplitFirst(n + "=" + w, '=') == Some((n, w))
  {
    var line := n + "=" + w;
    assert line[0] == n[0];
    assert LeadingSpaces(line) == 0;
    assert Trim(line)[0] == n[0];
    SplitAtFirst(n, w);
  }

  /** A line `name = value` that is not a comment assigns the trimmed,
      unquoted value to the trimmed name; the value may hold further `=`. */
  lemma AssignmentLine(n: string, v: string)
    requires '=' !in n && !IsComment(n + "=" + v)
    ensures ParseLine(n + "=" + v) == Assign(Trim(n), Unquote(Trim(v)))
  {
    SplitAtFirst(n, v);
  }

  /** Surrounding quotes of either kind are dropped, whatever the value holds. */
  lemma QuotedAssignmentLine(n: string, q: char, v: string)
    requires n != [] && Trim(n) == n && '=' !in n && n[0] != '#'
    requires IsQuote(q)
    ensures ParseLine(n + "=" + [q] + v + [q]) == Assign(n, v)
  {
    var w := [q] + v + [q];
    assert n + "=" + [q] + v + [q] == n + "=" + w;
    TrimOfTrimmed(w);
    SplitAfterName(n, w);
    AssignmentLine(n, w);
    assert w[1..|w| - 1] == v;
  }

  /** PHP's `?:` on a string: "" and "0" are falsy. */
  function EnvOr(env: map<string, string>, name: string, default: string): (r: string)
    ensures name in env && !PhpEmpty(env[name]) ==> r == env[name]
    ensures (name !in env || PhpEmpty(env[name])) ==> r == default
  {
    if name in env && !PhpEmpty(env[name]) then env[name] else default
  }

  /** The constants config.php defines. */
  datatype Settings = Settings(
    dbHost: string, dbUser: string, dbPassword: string, dbName: string,
    leaderCode: string, guestCode: string, appUrl: string)

  function FromEnv(env: map<string, string>): (s: Settings)
    ensures !PhpEmpty(s.leaderCode) && !PhpEmpty(s.guestCode)
    ensures !PhpEmpty(s.dbHost) && !PhpEmpty(s.dbName) && !PhpEmpty(s.appUrl)
  {
    Settings(
      EnvOr(env, "DB_HOST", "localhost"),
      EnvOr(env, "DB_USER", "root"),
      EnvOr(env, "DB_PASSWORD", ""),
      EnvOr(env, "DB_NAME", "kemp"),
      EnvOr(env, "SECURITY_CODE_LEADER", "hbvb935jjkajd983"),
      EnvOr(env, "SECURITY_CODE_GUEST", "jh78ggt5vbq384"),
      EnvOr(env, "APP_URL", "https://kemp.baptist.sk"))
  }

  /** The built-in values, used for every variable that is unset or `empty()`. */
  const Defaults := Settings("localhost", "root", "", "kemp", "hbvb935jjkajd983",
                             "jh78ggt5vbq384", "https://kemp.baptist.sk")

  /** With none of the variables set, every constant takes its built-in value. */
  lemma UnsetEnvDefaults()
    ensures FromEnv(map[]) == Defaults
  {
  }

  /** Whatever else the environment holds, a variable set to a value that is
      not `empty()` is used as it is, and one set to `""` or `"0"` gives the
      built-in value; each constant reads its own variable only. */
  lemma SetVariableUsed(env: map<string, string>, v: string)
    ensures FromEnv(env["DB_HOST" := v]).dbHost == (if PhpEmpty(v) then Defaults.dbHost else v)
    ensures FromEnv(env["DB_USER" := v]).dbUser == (if PhpEmpty(v) then Defaults.dbUser else v)
    ensures FromEnv(env["DB_PASSWORD" := v]).dbPassword == (if PhpEmpty(v) then Defaults.dbPassword else v)
    ensures FromEnv(env["DB_NAME" := v]).dbName == (if PhpEmpty(v) then Defaults.dbName else v)
    ensures FromEnv(env["SECURITY_CODE_LEADER" := v]).leaderCode == (if PhpEmpty(v) then Defaults.leaderCode else v)
    ensures FromEnv(env["SECURITY_CODE_GUEST" := v]).guestCode == (if PhpEmpty(v) then Defaults.guestCode else v)
    ensures FromEnv(env["APP_URL" := v]).appUrl == (if PhpEmpty(v) then Defaults.appUrl else v)
    ensures FromEnv(env["SECURITY_CODE_LEADER" := v]).guestCode == FromEnv(env).guestCode
    ensures FromEnv(env["SECURITY_CODE_GUEST" := v]).leaderCode == FromEnv(env).leaderCode
  {
  }

  /** Setting a secret to "0" in `.env` does not change it: the default is used. */
  lemma ZeroSecretFallsBack(env: map<string, string>)
    requires "SECURITY_CODE_LEADER" in env && env["SECURITY_CODE_LEADER"] == "0"
    ensures FromEnv(env).leaderCode == "hbvb935jjkajd983"
  {
  }

  /** `sanitizeInput`: `htmlspecialchars(trim($input), ENT_QUOTES)`. */
  function SanitizeInput(input: string): (r: string)
    ensures |r| > 0 ==> !IsPhpSpace(r[0]) && !IsPhpSpace(r[|r| - 1])
    ensures forall i | 0 <= i < |r| :: !Html.IsMarkup(r[i])
    ensures |r| >= |Trim(input)|
    ensures r == "" <==> Trim(input) == ""
  {
    Html.Escape(Trim(input))
  }

  function VerifySecurityCode(code: string, typ: string, s: Settings): bool {
    if PhpEmpty(code) || PhpEmpty(typ) then false
    else if typ == "veduci" && code == s.leaderCode then true
    else if typ == "host" && code == s.guestCode then true
    else false
  }

  /** With the configured (never empty) secrets, a code is accepted exactly when
      it equals the secret of its type; other types never pass. */
  lemma VerifySecurityCodeIff(code: string, typ: string, env: map<string, string>)
    ensures VerifySecurityCode(code, typ, FromEnv(env)) <==>
              (typ == "veduci" && code == FromEnv(env).leaderCode)
              || (typ == "host" && code == FromEnv(env).guestCode)
  {
  }
}
