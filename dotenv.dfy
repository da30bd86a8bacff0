/** Start-up configuration: the `.env` loop that assigns into the process environment and
    the check that the service credential ended up there (main.py:9-24). */
module DotEnv {
  import opened Wrappers
  import opened PyStr

  /** The one setting whose absence stops the program at start-up. */
  const ApiKeyName: string := "GROQ_API_KEY"

  /** Why a non-skipped line raises. */
  datatype LineError =
    | NoEquals          // `key, value = ....split('=', 1)` has only one value to unpack
    | RejectedByEnviron // `os.environ[key] = value` refuses an empty name or a NUL character

  /** What one line of the `.env` file does to the environment. */
  datatype LineEffect = Skip | Assign(key: string, value: string) | Raise(why: LineError)

  /** One iteration of the `.env` loop (main.py:15-17), as the effect the line has. A line is
      skipped exactly when it is blank after stripping whitespace or its RAW text starts with
      `#` (an indented `#` is not a comment); a line that is not skipped raises for want of `=`
      exactly when its stripped text has none; an assignment has a non-empty key without `=`,
      and neither key nor value holds NUL. */
  function ParseLine(line: string): (r: LineEffect)
    ensures r.Skip? <==> Strip(line, IsSpace) == [] || (line != [] && line[0] == '#')
    ensures r == Raise(NoEquals) <==> !r.Skip? && '=' !in Strip(line, IsSpace)
    ensures r.Assign? ==> r.key != [] && '=' !in r.key && '\0' !in r.key && '\0' !in r.value
  {
    var s := Strip(line, IsSpace);
    if s == [] || (line != [] && line[0] == '#') then Skip
    else match SplitFirst(s, '=')
      case None => Raise(NoEquals)
      case Some((key, raw)) =>
        var value := Strip(raw, IsQuote);
        if key == [] || '\0' in key || '\0' in value then Raise(RejectedByEnviron)
        else Assign(key, value)
  }

  /** An assigning line's key is the non-empty text of the stripped line before its first `=`. */
  lemma AssignedKey(line: string)
    requires ParseLine(line).Assign?
    ensures var s := Strip(line, IsSpace);
      var key := ParseLine(line).key;
      |key| < |s| && s[..|key|] == key && s[|key|] == '=' && '=' !in key && key != []
  {
    var s := Strip(line, IsSpace);
    var parts := SplitFirst(s, '=');
    assert s == parts.value.0 + "=" + parts.value.1;
  }

  /** An assigning line's value is the rest of the stripped line after its first `=`, with
      every leading and trailing quote character removed; neither key nor value holds NUL. */
  lemma AssignedValue(line: string)
    requires ParseLine(line).Assign?
    ensures var s := Strip(line, IsSpace);
      var key := ParseLine(line).key;
      |key| < |s| && ParseLine(line).value == Strip(s[|key| + 1..], IsQuote)
      && '\0' !in key && '\0' !in ParseLine(line).value
  {
    var s := Strip(line, IsSpace);
    var parts := SplitFirst(s, '=');
    var key, raw := parts.value.0, parts.value.1;
    assert s[|key| + 1..] == raw by {
      assert s == key + "=" + raw;
    }
  }

  /** Conversely, a line that is not a comment and whose stripped text is `key=raw`, with a
      non-empty key without `=` and no NUL in the key or the unquoted value, assigns the
      unquoted value to that key. */
  lemma KeyValueLineAssigns(line: string, key: string, raw: string)
    requires !(line != [] && line[0] == '#')
    requires Strip(line, IsSpace) == key + "=" + raw
    requires key != [] && '=' !in key && '\0' !in key && '\0' !in Strip(raw, IsQuote)
    ensures ParseLine(line) == Assign(key, Strip(raw, IsQuote))
  {
    SplitFirstOfParts(key, raw, '=');
  }

  /** The effect of every line of the file, in file order. */
  function Effects(lines: seq<string>): (r: seq<LineEffect>)
    ensures |r| == |lines|
    ensures forall i :: 0 <= i < |lines| ==> r[i] == ParseLine(lines[i])
  {
    if lines == [] then [] else Effects(lines[..|lines| - 1]) + [ParseLine(lines[|lines| - 1])]
  }

  /** The effects of a prefix of the file are the prefix of the file's effects. */
  lemma {:induction false} EffectsPrefix(lines: seq<string>, i: nat)
    requires i <= |lines|
    ensures Effects(lines[..i]) == Effects(lines)[..i]
  {
    if i < |lines| {
      var n := |lines| - 1;
      assert lines[..n][..i] == lines[..i];
      if i < n {
        EffectsPrefix(lines[..n], i);
      }
    } else {
      assert lines[..i] == lines;
    }
  }

  /** Result of running the loop over some lines: the environment afterwards, or the index of
      the line that raised and why. */
  datatype Loaded = Loaded(env: map<string, string>) | LineFailed(index: nat, why: LineError)

  /** The environment after the effects `effs` have been applied in order, starting from `env`;
      the first raising line stops the loop. */
  function Apply(env: map<string, string>, effs: seq<LineEffect>): (r: Loaded)
    ensures r.Loaded? <==> forall j :: 0 <= j < |effs| ==> !effs[j].Raise?
    ensures r.LineFailed? ==>
      r.index < |effs| && effs[r.index] == Raise(r.why)
      && (forall j :: 0 <= j < r.index ==> !effs[j].Raise?)
  {
    if effs == [] then Loaded(env)
    else
      var n := |effs| - 1;
      match Apply(env, effs[..n])
      case LineFailed(i, why) => LineFailed(i, why)
      case Loaded(e) =>
        match effs[n]
        case Skip => Loaded(e)
        case Assign(k, v) => Loaded(e[k := v])
        case Raise(why) => LineFailed(n, why)
  }

  /** The first raising line is where loading stops, whatever follows it. */
  lemma FirstRaiseStops(env: map<string, string>, effs: seq<LineEffect>, i: nat)
    requires i < |effs| && effs[i].Raise?
    requires Apply(env, effs[..i]).Loaded?
    ensures Apply(env, effs) == LineFailed(i, effs[i].why)
  {
    assert forall j :: 0 <= j < i ==> effs[..i][j] == effs[j];
  }

  /** Later lines override earlier ones: after a successful load, a key holds the value of
      the last line that assigns it. */
  lemma {:induction false} LastAssignmentWins(env: map<string, string>, effs: seq<LineEffect>, i: nat)
    requires Apply(env, effs).Loaded?
    requires i < |effs| && effs[i].Assign?
    requires forall j :: i < j < |effs| ==> !(effs[j].Assign? && effs[j].key == effs[i].key)
    ensures effs[i].key in Apply(env, effs).env
    ensures Apply(env, effs).env[effs[i].key] == effs[i].value
  {
    var n := |effs| - 1;
    if i < n {
      LastAssignmentWins(env, effs[..n], i);
    }
  }

  /** A key that no line assigns keeps whatever the environment held before, and stays
      absent if it was absent. */
  lemma {:induction false} UnassignedKeyKept(env: map<string, string>, effs: seq<LineEffect>, key: string)
    requires Apply(env, effs).Loaded?
    requires forall j :: 0 <= j < |effs| ==> !(effs[j].Assign? && effs[j].key == key)
    ensures key in Apply(env, effs).env <==> key in env
    ensures key in env ==> Apply(env, effs).env[key] == env[key]
  {
    if effs != [] {
      UnassignedKeyKept(env, effs[..|effs| - 1], key);
    }
  }

  /** Why start-up stops before any repository is cloned. */
  datatype ConfigError =
    | EnvFileNotFound              // the FileNotFoundError re-raised as ValueError
    | BadLine(index: nat, why: LineError)
    | ApiKeyMissing

  /** The process environment, which the `.env` loop updates key by key. */
  class Environment {
    var vars: map<string, string>

    /** The environment the process inherited. */
    constructor (inherited: map<string, string>)
      ensures vars == inherited
    {
      vars := inherited;
    }

    /** The `for line in f` loop of main.py:14-17 over the lines of an open `.env` file.
        When a line raises, the assignments of the lines before it have already happened. */
    method LoadLines(lines: seq<string>) returns (failure: Option<(nat, LineError)>)
      modifies this
      ensures Apply(old(vars), Effects(lines)).Loaded? ==>
        failure.None? && vars == Apply(old(vars), Effects(lines)).env
      ensures Apply(old(vars), Effects(lines)).LineFailed? ==>
        var i := Apply(old(vars), Effects(lines)).index;
        failure == Some((i, Apply(old(vars), Effects(lines)).why))
        && vars == Apply(old(vars), Effects(lines)[..i]).env
    {
      ghost var effs := Effects(lines);
      var i := 0;
      while i < |lines|
        invariant 0 <= i <= |lines|
        invariant Apply(old(vars), effs[..i]) == Loaded(vars)
      {
        EffectsPrefix(lines, i);
        assert effs[..i + 1][..i] == effs[..i];
        match ParseLine(lines[i]) {
          case Skip =>
          case Assign(k, v) =>
            vars := vars[k := v];
          case Raise(why) =>
            FirstRaiseStops(old(vars), effs, i);
            return Some((i, why));
        }
        i := i + 1;
      }
      assert effs[..i] == effs;
      failure := None;
    }

    /** Start-up (main.py:12-24): read `.env` (`None` when the file does not exist), load
        it, then demand the API key. On success the key's value is returned. */
    method Startup(file: Option<seq<string>>) returns (r: Result<string, ConfigError>)
      modifies this
      ensures file.None? ==> r == Failure(EnvFileNotFound) && vars == old(vars)
      ensures file.Some? && Apply(old(vars), Effects(file.value)).LineFailed? ==>
        var a := Apply(old(vars), Effects(file.value));
        r == Failure(BadLine(a.index, a.why)) && vars == Apply(old(vars), Effects(file.value)[..a.index]).env
      ensures file.Some? && Apply(old(vars), Effects(file.value)).Loaded? ==>
        var e := Apply(old(vars), Effects(file.value)).env;
        vars == e
        && (ApiKeyName in e ==> r == Success(e[ApiKeyName]))
        && (ApiKeyName !in e ==> r == Failure(ApiKeyMissing))
    {
      if file.None? {
        return Failure(EnvFileNotFound);
      }
      var failure := LoadLines(file.value);
      if failure.Some? {
        return Failure(BadLine(failure.value.0, failure.value.1));
      }
      if ApiKeyName in vars {
        r := Success(vars[ApiKeyName]);
      } else {
        r := Failure(ApiKeyMissing);
      }
    }
  }
}
