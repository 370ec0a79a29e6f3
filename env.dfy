/**
  The process environment as the scripts use it: reading a boolean flag,
  and loading a `.env` file without overriding what is already set.
 */
module Env {
  import opened Wrappers
  import opened StringUtil

  // ---------------------------------------------------------------------------
  // Boolean flags

  /** The spellings of a true flag, after stripping and lower-casing. */
  const TruthyWords: seq<string> := ["1", "true", "yes", "y", "on"]

  /** The flag `name`: `default` when the variable is unset, otherwise
      whether its stripped, lower-cased value is one of `TruthyWords`. */
  function EnvBool(env: map<string, string>, name: string, default: bool): (r: bool)
  {
    if name !in env then default else Lower(Strip(env[name])) in TruthyWords
  }

  /** An unset variable yields the default; a set one never does, whatever
      its value: `"false"`, `""` or `"maybe"` are all false. */
  lemma EnvBoolDefault(env: map<string, string>, name: string, default: bool)
    ensures name !in env ==> EnvBool(env, name, default) == default
    ensures name in env ==> EnvBool(env, name, true) == EnvBool(env, name, false)
    ensures name in env && Lower(Strip(env[name])) !in TruthyWords ==> !EnvBool(env, name, default)
  {
  }

  lemma {:induction false} LowerIdempotent(s: string)
    ensures Lower(Lower(s)) == Lower(s)
  {
    if |s| > 0 {
      LowerIdempotent(s[1..]);
    }
  }

  /** Case and surrounding whitespace do not matter: a value reads the same
      as its lower-cased, stripped form, so `" TRUE "` and `"Yes"` are true. */
  lemma EnvBoolNormalised(env: map<string, string>, name: string, default: bool)
    requires name in env
    ensures EnvBool(env, name, default) == EnvBool(env[name := Lower(Strip(env[name]))], name, default)
    ensures EnvBool(env, name, default) == EnvBool(env[name := Strip(Lower(env[name]))], name, default)
  {
    var s := env[name];
    StripLower(s);
    LowerIdempotent(Strip(s));
    StripIdempotent(s);
    StripLower(Strip(s));
  }

  lemma {:induction false} StripIdempotent(s: string)
    ensures Strip(Strip(s)) == Strip(s)
  {
    var lo, hi := StripSlice(s);
    StripNoSpaceEnds(s[lo..hi]);
  }

  /** The words themselves, in any case, are true. */
  lemma EnvBoolWords(env: map<string, string>, name: string, default: bool)
    requires name in env && env[name] in TruthyWords
    ensures EnvBool(env, name, default)
  {
    var s := env[name];
    StripNoSpaceEnds(s);
    assert Lower(s) == s;
  }

  // ---------------------------------------------------------------------------
  // One line of a `.env` file

  /** A `KEY=value` assignment read from one line. */
  datatype Assignment = Assignment(key: string, value: string)

  /** The position of the first `c` in `s`, or `|s|` when there is none. */
  function FirstIndexOf(s: string, c: char): (i: nat)
    ensures i <= |s|
    ensures forall k | 0 <= k < i :: s[k] != c
    ensures i < |s| ==> s[i] == c
  {
    if |s| == 0 || s[0] == c then 0 else 1 + FirstIndexOf(s[1..], c)
  }

  /** A value wrapped in one pair of matching quotes loses them; a lone
      quote character is a pair whose ends coincide and leaves nothing. */
  function Unquote(v: string): (r: string)
  {
    if |v| > 0 && ((v[0] == '"' && v[|v| - 1] == '"') || (v[0] == '\'' && v[|v| - 1] == '\''))
    then (if |v| >= 2 then v[1..|v| - 1] else "")
    else v
  }

  /** The assignment a line makes, if any: blank lines, comments, lines
      without `=` and lines with an empty key make none. The key is what
      precedes the first `=`, the value what follows it, both stripped. */
  function ParseEnvLine(line: string): (r: Option<Assignment>)
  {
    var t := Strip(line);
    if t == [] || t[0] == '#' || '=' !in t then None
    else
      var i := FirstIndexOf(t, '=');
      var key := Strip(t[..i]);
      if key == [] then None
      else Some(Assignment(key, Unquote(Strip(t[i + 1..]))))
  }

  /** What an assignment's key looks like: never empty, never holding `=`,
      never with whitespace at its ends, never opening with `#`. */
  predicate IsKey(k: string) {
    && k != []
    && '=' !in k
    && !IsSpace(k[0]) && !IsSpace(k[|k| - 1])
    && k[0] != '#'
  }

  lemma {:induction false} ParsedKeyIsKey(line: string)
    requires ParseEnvLine(line).Some?
    ensures IsKey(ParseEnvLine(line).value.key)
  {
    var t := Strip(line);
    var lo, hi := StripSlice(line);
    var i := FirstIndexOf(t, '=');
    var key := Strip(t[..i]);
    var klo, khi := StripSlice(t[..i]);
    assert key == t[klo..khi];
    assert '=' !in key by {
      forall k | 0 <= k < |key|
        ensures key[k] != '='
      {
        assert key[k] == t[klo + k];
      }
    }
    assert !IsSpace(t[0]) by { assert t == line[lo..hi]; }
    assert klo == 0;
  }

  /** `KEY=value` assigns `value` to `KEY` when the value has no
      whitespace at its ends and is not wrapped in quotes. */
  lemma {:induction false} ParsePlain(k: string, v: string)
    requires IsKey(k)
    requires |v| > 0 ==> !IsSpace(v[0]) && !IsSpace(v[|v| - 1])
    requires |v| > 0 ==> !((v[0] == '"' && v[|v| - 1] == '"') || (v[0] == '\'' && v[|v| - 1] == '\''))
    ensures ParseEnvLine(k + "=" + v) == Some(Assignment(k, v))
  {
    var line := k + "=" + v;
    StripNoSpaceEnds(line);
    assert line[..|k|] == k;
    assert line[|k| + 1..] == v;
    assert FirstIndexOf(line, '=') == |k| by {
      forall j | 0 <= j < |k|
        ensures line[j] != '='
      {
        assert line[j] == k[j];
      }
      FirstIndexAt(line, '=', |k|);
    }
    StripNoSpaceEnds(k);
    StripNoSpaceEnds(v);
    assert Unquote(v) == v;
    assert line != [] && line[0] != '#' && '=' in line by {
      assert line[0] == k[0];
      assert line[|k|] == '=';
    }
  }

  /** `KEY="value"` assigns `value`, whatever it holds: quotes protect
      whitespace and further `=` signs. */
  lemma {:induction false} ParseQuoted(k: string, v: string)
    requires IsKey(k)
    ensures ParseEnvLine(k + "=\"" + v + "\"") == Some(Assignment(k, v))
  {
    var q := "\"" + v + "\"";
    var line := k + "=" + q;
    assert line == k + "=\"" + v + "\"";
    StripNoSpaceEnds(line);
    assert line[..|k|] == k;
    assert line[|k| + 1..] == q;
    assert FirstIndexOf(line, '=') == |k| by {
      forall j | 0 <= j < |k|
        ensures line[j] != '='
      {
        assert line[j] == k[j];
      }
      FirstIndexAt(line, '=', |k|);
    }
    StripNoSpaceEnds(k);
    StripNoSpaceEnds(q);
    assert Unquote(q) == v by {
      assert q[1..|q| - 1] == v;
    }
    assert line != [] && line[0] != '#' && '=' in line by {
      assert line[0] == k[0];
      assert line[|k|] == '=';
    }
  }

  lemma {:induction false} FirstIndexAt(s: string, c: char, i: nat)
    requires i < |s| && s[i] == c
    requires forall k | 0 <= k < i :: s[k] != c
    ensures FirstIndexOf(s, c) == i
  {
    if i > 0 {
      FirstIndexAt(s[1..], c, i - 1);
    }
  }

  /** Lines that are blank or comments, and lines without `=`, assign
      nothing. */
  lemma SkippedLines(line: string)
    ensures Strip(line) == [] ==> ParseEnvLine(line) == None
    ensures Strip(line) != [] && Strip(line)[0] == '#' ==> ParseEnvLine(line) == None
    ensures '=' !in line ==> ParseEnvLine(line) == None
  {
    if '=' !in line && Strip(line) != [] {
      var lo, hi := StripSlice(line);
      assert '=' !in Strip(line) by {
        forall k | 0 <= k < hi - lo
          ensures Strip(line)[k] != '='
        {
          assert Strip(line)[k] == line[lo + k];
        }
      }
    }
  }

  // ---------------------------------------------------------------------------
  // A whole file

  /** Whether `line` assigns to `k`. */
  predicate Defines(line: string, k: string) {
    ParseEnvLine(line).Some? && ParseEnvLine(line).value.key == k
  }

  /** Line `j` is the first of `lines` to assign to `k`. */
  predicate FirstDefinition(lines: seq<string>, k: string, j: int) {
    && 0 <= j < |lines|
    && Defines(lines[j], k)
    && forall i | 0 <= i < j :: !Defines(lines[i], k)
  }

  /** One line applied to the environment: its assignment is made unless
      the key is already set. */
  function ApplyLine(env: map<string, string>, line: string): map<string, string> {
    match ParseEnvLine(line)
    case Some(a) => if a.key in env then env else env[a.key := a.value]
    case None => env
  }

  /** The environment after loading `lines` in order. */
  function Loaded(env: map<string, string>, lines: seq<string>): map<string, string>
  {
    if lines == [] then env
    else ApplyLine(Loaded(env, lines[..|lines| - 1]), lines[|lines| - 1])
  }

  /** Loading one more line applies it to what the earlier lines left. */
  lemma LoadedSnoc(env: map<string, string>, lines: seq<string>, i: nat)
    requires i < |lines|
    ensures Loaded(env, lines[..i + 1]) == ApplyLine(Loaded(env, lines[..i]), lines[i])
  {
    assert lines[..i + 1][..i] == lines[..i];
  }

  /** Loading never changes a variable that was already set. */
  lemma {:induction false} LoadedKeepsExisting(env: map<string, string>, lines: seq<string>, k: string)
    requires k in env
    ensures k in Loaded(env, lines) && Loaded(env, lines)[k] == env[k]
  {
    if lines != [] {
      LoadedKeepsExisting(env, lines[..|lines| - 1], k);
    }
  }

  /** A variable that was not set is set afterwards exactly when some line
      assigns to it, and then to the value of the first such line. */
  lemma {:induction false} LoadedNewKey(env: map<string, string>, lines: seq<string>, k: string)
    requires k !in env
    ensures k in Loaded(env, lines) <==> exists j | 0 <= j < |lines| :: Defines(lines[j], k)
    ensures k in Loaded(env, lines) ==>
      exists j :: FirstDefinition(lines, k, j) && Loaded(env, lines)[k] == ParseEnvLine(lines[j]).value.value
  {
    if lines != [] {
      var n := |lines| - 1;
      var init := lines[..n];
      var before := Loaded(env, init);
      LoadedNewKey(env, init, k);
      assert forall j | 0 <= j < n :: lines[j] == init[j];
      if k in before {
        var j :| FirstDefinition(init, k, j) && before[k] == ParseEnvLine(init[j]).value.value;
        assert FirstDefinition(lines, k, j);
      } else if Defines(lines[n], k) {
        assert FirstDefinition(lines, k, n);
      } else {
        assert k !in Loaded(env, lines);
        assert forall j | 0 <= j < |lines| :: !Defines(lines[j], k);
      }
    }
  }

  /** Loading adds only keys that some line assigns. */
  lemma {:induction false} LoadedDomain(env: map<string, string>, lines: seq<string>)
    ensures env.Keys <= Loaded(env, lines).Keys
    ensures forall k | k in Loaded(env, lines) && k !in env :: IsKey(k)
  {
    if lines != [] {
      var n := |lines| - 1;
      LoadedDomain(env, lines[..n]);
      if ParseEnvLine(lines[n]).Some? {
        ParsedKeyIsKey(lines[n]);
      }
    }
  }

  /** Loading the same file twice changes nothing the second time. */
  lemma {:induction false} LoadedTwice(env: map<string, string>, lines: seq<string>)
    ensures Loaded(Loaded(env, lines), lines) == Loaded(env, lines)
  {
    var once := Loaded(env, lines);
    var twice := Loaded(once, lines);
    forall k | k in once
      ensures k in twice && twice[k] == once[k]
    {
      LoadedKeepsExisting(once, lines, k);
    }
    forall k | k in twice
      ensures k in once
    {
      if k !in once {
        LoadedNewKey(once, lines, k);
        if k !in env {
          LoadedNewKey(env, lines, k);
        } else {
          LoadedKeepsExisting(env, lines, k);
        }
      }
    }
  }

  /** The process environment. */
  class Environment {
    var vars: map<string, string>

    constructor (initial: map<string, string>)
      ensures vars == initial
    {
      vars := initial;
    }

    /** Loads the lines of a `.env` file, one at a time, setting each
        assignment whose key is not set yet. */
    method LoadEnvFile(lines: seq<string>)
      modifies this
      ensures vars == Loaded(old(vars), lines)
    {
      ghost var start := vars;
      var i := 0;
      while i < |lines|
        invariant 0 <= i <= |lines|
        invariant vars == Loaded(start, lines[..i])
      {
        ghost var before := vars;
        LoadedSnoc(start, lines, i);
        var line := Strip(lines[i]);
        if line == [] || line[0] == '#' {
          SkippedLines(lines[i]);
          assert vars == ApplyLine(before, lines[i]);
          i := i + 1;
          continue;
        }
        if '=' in line {
          var eq := FirstIndexOf(line, '=');
          var key := Strip(line[..eq]);
          var value := Strip(line[eq + 1..]);
          value := Unquote(value);
          assert ParseEnvLine(lines[i]) == if key == [] then None else Some(Assignment(key, value));
          if key != [] && key !in vars {
            vars := vars[key := value];
          }
        } else {
          assert ParseEnvLine(lines[i]) == None;
        }
        assert vars == ApplyLine(before, lines[i]);
        i := i + 1;
      }
      assert lines[..|lines|] == lines;
    }
  }
}
