/** `Config`: the settings document (the `-c` file, holding `env`,
    `elasticsearch`, `snapshot` and so on) and the variables of its `env`
    section. Building the variables runs each `python` or `shell` directive
    through an executor, wraps every other value in a one-element list, drops
    the `env` section from the document and renders the variables into what
    is left with `format_data`.

    The executors are opaque: `exec` of a directive's code is a function from
    the command to the globals it leaves (or a crash), `popen` a function from
    the command to the lines it prints (or a failure to start), and
    `literal_eval` a partial parse of text. */
module Environment {
  import opened Values
  import opened Render

  /** What executing a `python` directive's code gave. */
  datatype Script = Crashed | Ran(globals: Dict<Value>)

  datatype Executors = Executors(
    python: Value -> Script,
    shell: Value -> Option<seq<string>>,
    parse: string -> Option<Value>)

  /** `Config._run_python`: the `result` global the code leaves, `""` when it
      leaves none, the command itself when the code raises. */
  function RunPython(python: Value -> Script, command: Value): Value {
    match python(command)
    case Crashed => command
    case Ran(globals) => (match Get(globals, "result") case Some(r) => r case None => Str(""))
  }

  /** The characters `str.rstrip()` strips in Python 2. */
  predicate IsSpace(c: char) {
    c == ' ' || c == '\t' || c == '\n' || c == '\r' || c == 11 as char || c == 12 as char
  }

  /** `str.rstrip()`: the longest prefix that does not end in white space. */
  function Rstrip(s: string): (r: string)
    ensures |r| <= |s| && r == s[..|r|]
    ensures r == [] || !IsSpace(r[|r| - 1])
    ensures forall i | |r| <= i < |s| :: IsSpace(s[i])
    decreases |s|
  {
    if s != [] && IsSpace(s[|s| - 1]) then Rstrip(s[..|s| - 1]) else s
  }

  /** `''.join(map(rstrip, lines))`. */
  function JoinStripped(lines: seq<string>): string
    decreases |lines|
  {
    if lines == [] then [] else JoinStripped(lines[..|lines| - 1]) + Rstrip(lines[|lines| - 1])
  }

  /** `Config._run_shell`: the stripped output lines run together, the
      command itself when the command cannot be started. */
  function RunShell(shell: Value -> Option<seq<string>>, command: Value): Value {
    match shell(command)
    case None => command
    case Some(lines) => Str(JoinStripped(lines))
  }

  /** The variable a `kt: command` pair of a directive dict sets, if any. */
  function Directive(x: Executors, kt: string, command: Value): Option<Value> {
    if kt == "python" then Some(RunPython(x.python, command))
    else if kt == "shell" then Some(RunShell(x.shell, command))
    else None
  }

  /** The inner loop over a directive dict `d` for variable `k`, after its
      first |d| pairs. */
  function Directives(x: Executors, d: Dict<Value>, env: Dict<Value>, k: string): Dict<Value>
    decreases |d|
  {
    if d == [] then env
    else
      var before := Directives(x, d[..|d| - 1], env, k);
      match Directive(x, d[|d| - 1].0, d[|d| - 1].1)
      case Some(v) => Assign(before, k, v)
      case None => before
  }

  /** The outer loop over the `env` section, after its first |section| entries. */
  function EnvAfter(x: Executors, section: Dict<Value>, env: Dict<Value>): Dict<Value>
    decreases |section|
  {
    if section == [] then env
    else
      var before := EnvAfter(x, section[..|section| - 1], env);
      var (k, v) := section[|section| - 1];
      if v.Mapping? then Directives(x, v.entries, before, k) else Assign(before, k, List([v]))
  }

  lemma EnvAfterNext(x: Executors, section: Dict<Value>, env: Dict<Value>, i: nat)
    requires i < |section|
    ensures EnvAfter(x, section[..i + 1], env) ==
      if section[i].1.Mapping? then Directives(x, section[i].1.entries, EnvAfter(x, section[..i], env), section[i].0)
      else Assign(EnvAfter(x, section[..i], env), section[i].0, List([section[i].1]))
  {
    assert section[..i + 1][..i] == section[..i];
  }

  lemma DirectivesNext(x: Executors, d: Dict<Value>, env: Dict<Value>, k: string, j: nat)
    requires j < |d|
    ensures Directives(x, d[..j + 1], env, k) ==
      match Directive(x, d[j].0, d[j].1)
      case Some(v) => Assign(Directives(x, d[..j], env, k), k, v)
      case None => Directives(x, d[..j], env, k)
  {
    assert d[..j + 1][..j] == d[..j];
  }

  /** Reference: the value of the last directive of `d`, read from the end. */
  function LastDirective(x: Executors, d: Dict<Value>): Option<Value>
    decreases |d|
  {
    if d == [] then None
    else match Directive(x, d[|d| - 1].0, d[|d| - 1].1)
      case Some(v) => Some(v)
      case None => LastDirective(x, d[..|d| - 1])
  }

  /** The variable an `env` entry with value `v` defines, if any. */
  function Variable(x: Executors, v: Value): Option<Value> {
    if v.Mapping? then LastDirective(x, v.entries) else Some(List([v]))
  }

  /** The state `__format_env` leaves: the document, the variables and the
      exception it raised, if any. */
  datatype Loaded = Loaded(data: Value, env: Dict<Value>, raised: Option<Error>)

  /** What `Config.__format_env` does to `data` and `env`. */
  function FormatEnvResult(x: Executors, data: Value, env: Dict<Value>): Loaded {
    if !Truthy(data) then Loaded(data, env, None)
    else if !data.Mapping? then Loaded(data, env, Some(WrongType))
    else
      var section := GetOr(data, "env", Str("")).value;
      if !Truthy(section) then Loaded(data, env, None)
      else if !section.Mapping? then Loaded(data, env, Some(WrongType))
      else
        var env' := EnvAfter(x, section.entries, env);
        var popped := Mapping(Remove(data.entries, "env"));
        match FormatData(popped, env', x.parse)
        case Ok(rendered) => Loaded(rendered, env', None)
        case Err(e) => Loaded(popped, env', Some(e))
  }

  class Config {
    var data: Value
    var env: Dict<Value>

    /** `Config(path)` before `__format_env`: `loaded` is what `Config.read`
        gives for the file. */
    constructor(loaded: Value)
      ensures data == loaded && env == []
    {
      data := loaded;
      env := [];
    }

    /** `Config.__format_env`. */
    method FormatEnv(x: Executors) returns (raised: Option<Error>)
      modifies this
      ensures Loaded(data, env, raised) == FormatEnvResult(x, old(data), old(env))
    {
      raised := None;
      if !Truthy(data) {
        return;
      }
      if !data.Mapping? {
        raised := Some(WrongType);
        return;
      }
      var section := GetOr(data, "env", Str("")).value;
      if !Truthy(section) {
        return;
      }
      if !section.Mapping? {
        raised := Some(WrongType);
        return;
      }
      var document := data.entries;
      var entries := section.entries;
      var vars := env;
      var i := 0;
      while i < |entries|
        invariant 0 <= i <= |entries|
        invariant vars == EnvAfter(x, entries[..i], old(env))
      {
        var (k, v) := entries[i];
        EnvAfterNext(x, entries, old(env), i);
        if v.Mapping? {
          var directives := v.entries;
          ghost var before := vars;
          var j := 0;
          while j < |directives|
            invariant 0 <= j <= |directives|
            invariant vars == Directives(x, directives[..j], before, k)
          {
            var (kt, command) := directives[j];
            DirectivesNext(x, directives, before, k, j);
            if kt == "python" {
              assert Directive(x, kt, command) == Some(RunPython(x.python, command));
              vars := Assign(vars, k, RunPython(x.python, command));
            } else if kt == "shell" {
              assert Directive(x, kt, command) == Some(RunShell(x.shell, command));
              vars := Assign(vars, k, RunShell(x.shell, command));
            } else {
              assert Directive(x, kt, command) == None;
            }
            j := j + 1;
          }
          assert directives[..j] == directives;
        } else {
          vars := Assign(vars, k, List([v]));
        }
        i := i + 1;
      }
      assert entries[..i] == entries;
      env := vars;
      data := Mapping(Remove(document, "env"));
      var rendered := FormatData(data, env, x.parse);
      if rendered.Ok? {
        data := rendered.value;
      } else {
        raised := Some(rendered.error);
      }
    }
  }

  // ---------------------------------------------------------------------------
  // Properties

  /** Within one directive dict the last `python` or `shell` pair wins, the
      other pairs are ignored, and no other variable changes. */
  lemma {:induction false} DirectivesLastWins(x: Executors, d: Dict<Value>, env: Dict<Value>, k: string, k': string)
    ensures Get(Directives(x, d, env, k), k') ==
      if k' == k && LastDirective(x, d).Some? then LastDirective(x, d) else Get(env, k')
    decreases |d|
  {
    if d != [] {
      var before := Directives(x, d[..|d| - 1], env, k);
      DirectivesLastWins(x, d[..|d| - 1], env, k, k');
      match Directive(x, d[|d| - 1].0, d[|d| - 1].1)
      case Some(v) => GetAssign(before, k, v, k');
      case None =>
    }
  }

  /** Each variable of an `env` section (whose keys are distinct, as in any
      dict) ends up as its `Variable`: a scalar or list `v` as `[v]`, a
      directive dict as its last directive's result; a directive dict with no
      directive and a name the section does not define leave the variables
      as they were. */
  lemma {:induction false} EnvAfterDefines(x: Executors, section: Dict<Value>, env: Dict<Value>, k: string)
    requires DistinctKeys(section)
    ensures Get(EnvAfter(x, section, env), k) ==
      match Get(section, k)
      case Some(v) => (if Variable(x, v).Some? then Variable(x, v) else Get(env, k))
      case None => Get(env, k)
    decreases |section|
  {
    if section != [] {
      var init := section[..|section| - 1];
      var (k0, v0) := section[|section| - 1];
      var before := EnvAfter(x, init, env);
      assert DistinctKeys(init) by {
        forall i, j | 0 <= i < j < |init| ensures init[i].0 != init[j].0 {
          assert init[i] == section[i] && init[j] == section[j];
        }
      }
      EnvAfterDefines(x, init, env, k);
      GetLast(section, k);
      if v0.Mapping? {
        DirectivesLastWins(x, v0.entries, before, k0, k);
      } else {
        GetAssign(before, k0, List([v0]), k);
      }
    }
  }

  /** `d.get(k)` on a dict with distinct keys, split at its last entry. */
  lemma {:induction false} GetLast<V>(d: Dict<V>, k: string)
    requires d != [] && DistinctKeys(d)
    ensures Get(d, k) == if d[|d| - 1].0 == k then Some(d[|d| - 1].1) else Get(d[..|d| - 1], k)
    decreases |d|
  {
    if |d| > 1 {
      var rest := d[1..];
      var init := d[..|d| - 1];
      DistinctTail(d);
      GetLast(rest, k);
      assert rest[..|rest| - 1] == init[1..];
      assert rest[|rest| - 1] == d[|d| - 1];
      assert d[0].0 != d[|d| - 1].0;
      assert init[0] == d[0];
      assert Get(d, k) == if d[0].0 == k then Some(d[0].1) else Get(rest, k);
      assert Get(init, k) == if d[0].0 == k then Some(d[0].1) else Get(init[1..], k);
    }
  }

  /** With no `env` section the document and the variables are untouched. */
  lemma NoEnvSection(x: Executors, data: Value, env: Dict<Value>)
    requires data.Mapping? && !HasKey(data.entries, "env")
    ensures FormatEnvResult(x, data, env) == Loaded(data, env, None)
  {
  }

  /** The `env` section is removed before the document is rendered: when no
      variable name occurs in what is left, that is the new document. */
  lemma EnvSectionRemoved(x: Executors, data: Value, env: Dict<Value>, section: Value)
    requires data.Mapping? && Get(data.entries, "env") == Some(section)
    requires section.Mapping? && section.entries != []
    requires forall e | e in EnvAfter(x, section.entries, env) ::
      !Occurs(e.0, StrOf(Mapping(Remove(data.entries, "env"))))
    ensures var r := FormatEnvResult(x, data, env);
      && r.raised == None
      && r == Loaded(Mapping(Remove(data.entries, "env")), EnvAfter(x, section.entries, env), None)
      && !HasKey(r.data.entries, "env")
  {
    assert GetOr(data, "env", Str("")).value == section;
    assert Truthy(data) && Truthy(section);
    var env' := EnvAfter(x, section.entries, env);
    var popped := Mapping(Remove(data.entries, "env"));
    forall i | 0 <= i < |env'| ensures !Occurs(env'[i].0, StrOf(popped)) {
      assert env'[i] in env';
    }
    FormatDataWithoutNames(popped, env', x.parse);
  }

  /** A command that cannot be run stands for itself. */
  lemma FailedDirectivesKeepCommand(x: Executors, command: Value)
    ensures x.python(command).Crashed? ==> Directive(x, "python", command) == Some(command)
    ensures x.shell(command).None? ==> Directive(x, "shell", command) == Some(command)
  {
  }

  /** Output lines that hold a line break only at their end are joined into
      text without one. */
  lemma {:induction false} ShellOutputIsOneLine(lines: seq<string>)
    requires forall l, i | l in lines && 0 <= i < |l| - 1 :: l[i] != '\n'
    ensures forall i | 0 <= i < |JoinStripped(lines)| :: JoinStripped(lines)[i] != '\n'
    decreases |lines|
  {
    if lines != [] {
      var init, last := lines[..|lines| - 1], lines[|lines| - 1];
      ShellOutputIsOneLine(init);
      var a, r := JoinStripped(init), Rstrip(last);
      assert JoinStripped(lines) == a + r;
      forall i | 0 <= i < |r| ensures r[i] != '\n' {
        assert r[i] == last[i];
        if i == |last| - 1 {
          assert !IsSpace(r[|r| - 1]);
        }
      }
      forall i | 0 <= i < |a + r| ensures (a + r)[i] != '\n' {
        if i < |a| {
          assert (a + r)[i] == a[i];
        } else {
          assert (a + r)[i] == r[i - |a|];
        }
      }
    }
  }
}
