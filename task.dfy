/** The task runner of `hefoki-backend/src/tasks/task.js` and the flag parser
    of `hefoki-backend/src/tasks/utils.js`. A `Task` starts, runs its handler
    (which may register and run subtasks), then either resolves with details
    or records an exception; its `status` is an HTTP-style code. The handler's
    settled outcome is a parameter: the model runs no code of its own. */
module Tasks {
  import opened Js

  // ---------------------------------------------------------------------
  // parseBoolean

  /** `toLowerCase` on one character, ASCII letters only. No character
      outside ASCII lower-cases into a letter of "false" (the only non-ASCII
      characters whose lower case is ASCII are the Kelvin sign, giving "k",
      and capital I with a dot, giving "i" and a combining dot), so for
      comparing with "false" and "0" this agrees with the full mapping. */
  function LowerChar(c: char): char {
    if 'A' <= c <= 'Z' then (c as int + 32) as char else c
  }

  function ToLower(s: string): (r: string)
    ensures |r| == |s|
    ensures forall i :: 0 <= i < |s| ==> r[i] == LowerChar(s[i])
  {
    seq(|s|, i requires 0 <= i < |s| => LowerChar(s[i]))
  }

  /** `default_value` when the caller gives none. */
  const DefaultFalse: JsValue := Bool(false)

  /** `parseBoolean(value, default_value)`: a string is trimmed and lower-cased
      and is false exactly when it reads "false" or "0"; any other value is
      its own truthiness, a nullish one deferring to the default's. */
  function ParseBoolean(value: JsValue, defaultValue: JsValue): bool {
    if value.Str? then
      var t := ToLower(Trim(value.s));
      t != "false" && t != "0"
    else
      Truthy(if Nullish(value) then defaultValue else value)
  }

  /** `c` is one of the two cases of the ASCII letter `lower`. */
  predicate EitherCase(c: char, lower: char) {
    c == lower || c as int == lower as int - 32
  }

  /** The strings that parse as false, spelled out: after trimming, "0", or
      "false" in any mix of upper and lower case. */
  predicate FalseSpelling(t: string) {
    || t == "0"
    || (&& |t| == 5 && EitherCase(t[0], 'f') && EitherCase(t[1], 'a') && EitherCase(t[2], 'l')
        && EitherCase(t[3], 's') && EitherCase(t[4], 'e'))
  }

  lemma LowerCharIs(c: char, lower: char)
    requires 'a' <= lower <= 'z'
    ensures LowerChar(c) == lower <==> EitherCase(c, lower)
  {
  }

  lemma ToLowerSpellsFalse(t: string)
    ensures ToLower(t) == "false" || ToLower(t) == "0" <==> FalseSpelling(t)
  {
    var l := ToLower(t);
    if |t| == 1 {
      assert l == "0" <==> l[0] == '0';
      assert l[0] == '0' <==> t[0] == '0';
      assert t == "0" <==> t[0] == '0';
    }
    if |t| == 5 {
      assert l == "false" <==> l[0] == 'f' && l[1] == 'a' && l[2] == 'l' && l[3] == 's' && l[4] == 'e';
      LowerCharIs(t[0], 'f');
      LowerCharIs(t[1], 'a');
      LowerCharIs(t[2], 'l');
      LowerCharIs(t[3], 's');
      LowerCharIs(t[4], 'e');
    }
  }

  lemma ParseBooleanFalseStrings(s: string, d: JsValue)
    ensures !ParseBoolean(Str(s), d) <==> FalseSpelling(Trim(s))
  {
    ToLowerSpellsFalse(Trim(s));
  }

  predicate AllWhitespace(w: string) {
    forall i :: 0 <= i < |w| ==> IsWhitespace(w[i])
  }

  lemma {:induction false} TrimStartPadding(w: string, s: string)
    requires AllWhitespace(w)
    ensures TrimStart(w + s) == TrimStart(s)
  {
    if w != [] {
      assert (w + s)[0] == w[0];
      assert (w + s)[1..] == w[1..] + s;
      TrimStartPadding(w[1..], s);
    } else {
      assert w + s == s;
    }
  }

  lemma {:induction false} TrimEndPadding(s: string, w: string)
    requires AllWhitespace(w)
    ensures TrimEnd(s + w) == TrimEnd(s)
    decreases |w|
  {
    if w != [] {
      var w' := w[..|w| - 1];
      assert (s + w)[..|s + w| - 1] == s + w';
      TrimEndPadding(s, w');
    } else {
      assert s + w == s;
    }
  }

  /** Trailing whitespace goes through `trimStart` untouched, unless nothing
      but whitespace is left. */
  lemma {:induction false} TrimStartTrailing(s: string, w: string)
    requires AllWhitespace(w)
    ensures TrimStart(s + w) == if TrimStart(s) == [] then [] else TrimStart(s) + w
  {
    if s == [] {
      assert s + w == w;
      TrimStartPadding(w, []);
      assert w + [] == w;
    } else if IsWhitespace(s[0]) {
      assert (s + w)[1..] == s[1..] + w;
      TrimStartTrailing(s[1..], w);
    }
  }

  lemma TrimPadding(w1: string, s: string, w2: string)
    requires AllWhitespace(w1) && AllWhitespace(w2)
    ensures Trim(w1 + s + w2) == Trim(s)
  {
    var x := w1 + s + w2;
    assert x == w1 + (s + w2);
    TrimStartPadding(w1, s + w2);
    TrimStartTrailing(s, w2);
    var t := TrimStart(s);
    if t == [] {
      assert TrimStart(x) == [];
    } else {
      assert TrimStart(x) == t + w2;
      TrimEndPadding(t, w2);
    }
  }

  /** Whitespace around a flag does not change how it parses. */
  lemma ParseBooleanIgnoresPadding(w1: string, s: string, w2: string, d: JsValue)
    requires AllWhitespace(w1) && AllWhitespace(w2)
    ensures ParseBoolean(Str(w1 + s + w2), d) == ParseBoolean(Str(s), d)
  {
    TrimPadding(w1, s, w2);
  }

  /** Only a nullish value consults the default; a string never does, and
      the empty string is true. */
  lemma ParseBooleanDefault(value: JsValue, d1: JsValue, d2: JsValue)
    ensures !Nullish(value) ==> ParseBoolean(value, d1) == ParseBoolean(value, d2)
    ensures Nullish(value) ==> ParseBoolean(value, d1) == Truthy(d1)
    ensures ParseBoolean(Str(""), d1)
  {
    assert TrimStart("") == "" && TrimEnd("") == "";
  }

  // ---------------------------------------------------------------------
  // Task

  /** The constructor's third argument: a bare handler function, or an
      options object (`details`, `exclude`, `taskFunction`). */
  datatype TaskSpec =
    | Handler(f: JsValue)
    | Options(details: Option<JsValue>, exclude: seq<string>, taskFunction: JsValue)

  /** `{}` */
  const EmptyOptions: TaskSpec := Options(None, [], Undefined)

  /** The `taskFunction` a task keeps: a bare function is wrapped as the
      options' `taskFunction`, which is kept only when truthy. */
  function HandlerOf(spec: TaskSpec): Option<JsValue> {
    match spec
    case Handler(f) => if Truthy(f) then Some(f) else None
    case Options(_, _, f) => if Truthy(f) then Some(f) else None
  }

  /** `task.details ?? {}` */
  function InitialDetails(spec: TaskSpec): JsValue {
    if spec.Options? && spec.details.Some? && !Nullish(spec.details.value) then spec.details.value
    else Obj(map[])
  }

  /** `new Set(task.exclude)` */
  function ExcludeOf(spec: TaskSpec): set<string> {
    if spec.Options? then set k | k in spec.exclude else {}
  }

  /** The details `toJSON` reports: an object loses its excluded keys; an
      array, a primitive or null passes through. */
  function FilterDetails(details: JsValue, exclude: set<string>): (r: JsValue)
    ensures details.Obj? ==> r.Obj? && r.fields.Keys == details.fields.Keys - exclude
    ensures details.Obj? ==> forall k :: k in r.fields ==> r.fields[k] == details.fields[k]
    ensures !details.Obj? ==> r == details
  {
    if details.Obj? then Obj(map k | k in details.fields && k !in exclude :: details.fields[k])
    else details
  }

  /** Filtering twice is filtering once by both sets; in particular
      filtering is idempotent, and filtering by nothing changes nothing. */
  lemma FilterDetailsCompose(details: JsValue, a: set<string>, b: set<string>)
    ensures FilterDetails(FilterDetails(details, a), b) == FilterDetails(details, a + b)
    ensures FilterDetails(details, {}) == details
  {
    if details.Obj? {
      var l := FilterDetails(FilterDetails(details, a), b);
      var r := FilterDetails(details, a + b);
      assert l.fields == r.fields;
      assert FilterDetails(details, {}).fields == details.fields;
    }
  }

  /** The fields `toJSON` reports (times and durations are not modelled;
      subtasks appear by name). */
  datatype TaskJson = TaskJson(
    name: string,
    resolved: bool,
    exception: Option<JsError>,
    status: Option<int>,
    tasks: seq<string>,
    details: JsValue)

  /** Truthiness of a caught exception: an error object is truthy, a thrown
      value is as truthy as itself. */
  predicate ExceptionTruthy(e: JsError) {
    match e
    case TypeError(_) => true
    case Thrown(v) => Truthy(v)
  }

  /** `resolve(details=null, …)`: an undefined argument, passed or not,
      takes the default `null`. */
  function ResolvedDetails(d: JsValue): JsValue {
    if d.Undefined? then Null else d
  }

  /** `error(exception=true, …)`: an undefined argument, passed or not (a
      handler that throws `undefined` or rejects with nothing), takes the
      default `true`. */
  function RecordedException(e: JsError): JsError {
    if e == Thrown(Undefined) then Thrown(Bool(true)) else e
  }

  /** `String(n)` for a natural number. */
  function NatToString(n: nat): (r: string)
    ensures |r| >= 1
    ensures n >= 10 ==> |r| >= 2
  {
    var digit := ['0' + ((n % 10) as char)];
    if n < 10 then digit else NatToString(n / 10) + digit
  }

  /** Distinct counts print differently. */
  lemma {:induction false} NatToStringInjective(a: nat, b: nat)
    requires NatToString(a) == NatToString(b)
    ensures a == b
  {
    var sa, sb := NatToString(a), NatToString(b);
    assert sa[|sa| - 1] == sb[|sb| - 1];
    assert a % 10 == b % 10;
    if a >= 10 && b >= 10 {
      assert NatToString(a / 10) == sa[..|sa| - 1] == sb[..|sb| - 1] == NatToString(b / 10);
      NatToStringInjective(a / 10, b / 10);
    }
  }

  /** The name the one-argument `runSubtask(fn)` gives its task as written:
      `this.tasks` is a plain object, so `this.tasks.length` is undefined. */
  const AnonymousName: string := "task-undefined"

  /** The name it evidently means: the number of subtasks so far, as the
      `??=` fallback beside it counts them. */
  function AnonymousNameCorrected(count: nat): string {
    "task-" + NatToString(count)
  }

  lemma AnonymousNamesDistinct(i: nat, j: nat)
    requires i != j
    ensures AnonymousNameCorrected(i) != AnonymousNameCorrected(j)
  {
    if AnonymousNameCorrected(i) == AnonymousNameCorrected(j) {
      assert AnonymousNameCorrected(i)[5..] == NatToString(i);
      assert AnonymousNameCorrected(j)[5..] == NatToString(j);
      NatToStringInjective(i, j);
    }
  }

  class Task {
    var name: string
    var args: JsValue
    var started: bool
    var finished: bool
    var resolved: bool
    /** `null`, or what the handler threw. */
    var exception: Option<JsError>
    /** Subtasks by name, in registration order. */
    var tasks: Dict<Task>
    var details: JsValue
    var exclude: set<string>
    /** `__status`: undefined until the task resolves or fails. */
    var statusCode: Option<int>
    var taskFunction: Option<JsValue>

    /** The constructor for a string name. */
    constructor(name: string, args: JsValue, spec: TaskSpec)
      ensures this.name == name && this.args == args
      ensures !started && !finished && !resolved && exception.None?
      ensures tasks == [] && details == InitialDetails(spec) && exclude == ExcludeOf(spec)
      ensures statusCode.None? && taskFunction == HandlerOf(spec)
    {
      this.name, this.args := name, args;
      started, finished, resolved, exception := false, false, false, None;
      tasks, details, exclude := [], InitialDetails(spec), ExcludeOf(spec);
      statusCode, taskFunction := None, HandlerOf(spec);
    }

    /** `status`: 102 while unfinished; then the recorded code when truthy;
        else 200 if resolved, 500 if an exception is recorded, or null.
        (The 207 branch compares a Set's `length`, which is undefined, so it
        is never taken.) */
    function Status(): (r: Option<int>)
      reads this
      ensures r == Some(102) <==> !finished || statusCode == Some(102)
      ensures r.Some? ==> r.value != 0
      ensures r.None? <==> && finished && !resolved && (statusCode.None? || statusCode.value == 0)
                           && !(exception.Some? && ExceptionTruthy(exception.value))
    {
      if !finished then Some(102)
      else if statusCode.Some? && statusCode.value != 0 then statusCode
      else if resolved then Some(200)
      else if exception.Some? && ExceptionTruthy(exception.value) then Some(500)
      else None
    }

    /** `toJSON()` */
    function ToJson(): (r: TaskJson)
      reads this
      ensures r.status == Status() && r.details == FilterDetails(details, exclude)
    {
      TaskJson(name, resolved, exception, Status(), Keys(tasks), FilterDetails(details, exclude))
    }

    /** `finish()` */
    method Finish()
      modifies this
      ensures started && finished
      ensures name == old(name) && resolved == old(resolved) && exception == old(exception)
      ensures tasks == old(tasks) && details == old(details) && exclude == old(exclude)
      ensures statusCode == old(statusCode) && args == old(args) && taskFunction == old(taskFunction)
    {
      started, finished := true, true;
    }

    /** `resolve(details, code)`: the task is finished and resolved, with
        these details (`null` for undefined); a non-zero code is its status
        from now on. */
    method Resolve(d: JsValue, code: int)
      modifies this
      ensures started && finished && resolved && details == ResolvedDetails(d) && statusCode == Some(code)
      ensures d.Undefined? ==> details == Null
      ensures code != 0 ==> Status() == Some(code)
      ensures name == old(name) && exception == old(exception) && tasks == old(tasks) && exclude == old(exclude)
      ensures args == old(args) && taskFunction == old(taskFunction)
    {
      statusCode, resolved, details := Some(code), true, ResolvedDetails(d);
      Finish();
    }

    /** `error(exception, code)`: the task is finished, not resolved, with
        the exception recorded (`true` for undefined); a non-zero code is its
        status from now on. */
    method Error(e: JsError, code: int)
      modifies this
      ensures started && finished && !resolved && exception == Some(RecordedException(e)) && statusCode == Some(code)
      ensures e == Thrown(Undefined) ==> exception == Some(Thrown(Bool(true)))
      ensures code != 0 ==> Status() == Some(code)
      ensures code == 0 && (ExceptionTruthy(e) || e == Thrown(Undefined)) ==> Status() == Some(500)
      ensures name == old(name) && details == old(details) && tasks == old(tasks) && exclude == old(exclude)
      ensures args == old(args) && taskFunction == old(taskFunction)
    {
      statusCode, exception, resolved := Some(code), Some(RecordedException(e)), false;
      Finish();
    }

    /** The start of `run()`. */
    method Start()
      modifies this
      ensures started && finished == old(finished) && resolved == old(resolved)
      ensures name == old(name) && exception == old(exception) && statusCode == old(statusCode)
      ensures tasks == old(tasks) && details == old(details) && exclude == old(exclude)
      ensures args == old(args) && taskFunction == old(taskFunction)
    {
      started := true;
    }

    /** The rest of `run()`, once the handler and the subtasks have settled
        with `outcome`: a value (null when nullish) resolves the task with
        status 200 and is returned; a throw is recorded with status 500 and
        thrown on. */
    method Settle(outcome: Result<JsValue>) returns (r: Result<JsValue>)
      modifies this
      ensures started && finished && statusCode.Some?
      ensures outcome.Ok? ==> && resolved && Status() == Some(200)
                              && details == (if Nullish(outcome.value) then Null else outcome.value)
                              && r == Ok(details) && exception == old(exception)
      ensures outcome.Err? ==> && !resolved && Status() == Some(500) && exception == Some(RecordedException(outcome.error))
                               && r == outcome && details == old(details)
      ensures name == old(name) && tasks == old(tasks) && exclude == old(exclude)
      ensures args == old(args) && taskFunction == old(taskFunction)
    {
      match outcome {
        case Ok(v) =>
          Resolve(if Nullish(v) then Null else v, 200);
          r := Ok(details);
        case Err(e) =>
          Error(e, 500);
          r := Err(e);
      }
    }

    /** `run()`, with the handler's settled outcome as a parameter. */
    method Run(outcome: Result<JsValue>) returns (r: Result<JsValue>)
      modifies this
      ensures started && finished
      ensures outcome.Ok? ==> && resolved && Status() == Some(200) && exception == old(exception)
                              && details == (if Nullish(outcome.value) then Null else outcome.value)
                              && r == Ok(details)
      ensures outcome.Err? ==> && !resolved && Status() == Some(500) && exception == Some(RecordedException(outcome.error))
                               && r == outcome && details == old(details)
      ensures name == old(name) && tasks == old(tasks) && exclude == old(exclude)
      ensures args == old(args) && taskFunction == old(taskFunction)
    {
      Start();
      r := Settle(outcome);
    }

    /** `runSubtask(task)` for a `Task`: registered under its name (an
        existing entry of that name is replaced in place), then run. */
    method RunSubtask(sub: Task, outcome: Result<JsValue>) returns (r: Result<JsValue>)
      requires sub != this
      modifies this, sub
      ensures tasks == DictSet(old(tasks), sub.name, sub)
      ensures sub.name == old(sub.name) && sub.started && sub.finished
      ensures sub.args == old(sub.args) && sub.taskFunction == old(sub.taskFunction)
      ensures outcome.Ok? ==> && sub.resolved && sub.Status() == Some(200) && r == Ok(sub.details)
                              && sub.details == (if Nullish(outcome.value) then Null else outcome.value)
      ensures outcome.Err? ==> !sub.resolved && sub.Status() == Some(500) && r == outcome
      ensures name == old(name) && started == old(started) && finished == old(finished)
      ensures resolved == old(resolved) && exception == old(exception) && statusCode == old(statusCode)
      ensures details == old(details) && exclude == old(exclude)
      ensures args == old(args) && taskFunction == old(taskFunction)
    {
      tasks := DictSet(tasks, sub.name, sub);
      r := sub.Run(outcome);
    }

    /** `runSubtask(name, fn)` and `runSubtask(name, args, fn)`: a name
        that is not a string rejects, registering nothing; otherwise a new
        task is registered and run. */
    method RunNewSubtask(subName: JsValue, subArgs: JsValue, spec: TaskSpec, outcome: Result<JsValue>)
      returns (r: Result<JsValue>, sub: Option<Task>)
      modifies this
      ensures !subName.Str? <==> r.Err? && sub.None?
      ensures !subName.Str? ==> tasks == old(tasks) && r == Err(TypeError(NameError))
      ensures subName.Str? ==> && sub.Some? && fresh(sub.value) && sub.value.name == subName.s
                               && tasks == DictSet(old(tasks), subName.s, sub.value)
                               && sub.value.finished
                               && (outcome.Ok? ==> sub.value.Status() == Some(200) && r == Ok(sub.value.details))
                               && (outcome.Err? ==> sub.value.Status() == Some(500) && r == outcome)
      ensures name == old(name) && started == old(started) && finished == old(finished)
      ensures resolved == old(resolved) && exception == old(exception) && statusCode == old(statusCode)
      ensures details == old(details) && exclude == old(exclude)
      ensures args == old(args) && taskFunction == old(taskFunction)
    {
      if !subName.Str? {
        return Err(TypeError(NameError)), None;
      }
      var t := new Task(subName.s, subArgs, spec);
      r := RunSubtask(t, outcome);
      sub := Some(t);
    }

    /** `runSubtask(task)` with one argument that is not a `Task`, as
        written: the argument is the new task's third constructor argument
        (a handler, or an options object), and every such task is named
        "task-undefined", so each replaces the one before. */
    method RunAnonymousSubtask(spec: TaskSpec, outcome: Result<JsValue>) returns (r: Result<JsValue>, sub: Task)
      modifies this
      ensures fresh(sub) && sub.name == AnonymousName && tasks == DictSet(old(tasks), AnonymousName, sub)
      ensures sub.taskFunction == HandlerOf(spec)
      ensures sub.finished && (outcome.Ok? ==> r == Ok(sub.details)) && (outcome.Err? ==> r == outcome)
      ensures name == old(name) && started == old(started) && finished == old(finished)
      ensures resolved == old(resolved) && exception == old(exception) && statusCode == old(statusCode)
      ensures details == old(details) && exclude == old(exclude)
      ensures args == old(args) && taskFunction == old(taskFunction)
    {
      sub := new Task(AnonymousName, Null, spec);
      r := RunSubtask(sub, outcome);
    }

    /** The one-argument `runSubtask` as evidently intended: named after the
        number of subtasks so far. */
    method RunAnonymousSubtaskCorrected(spec: TaskSpec, outcome: Result<JsValue>) returns (r: Result<JsValue>, sub: Task)
      modifies this
      ensures fresh(sub) && sub.name == AnonymousNameCorrected(|old(tasks)|)
      ensures sub.taskFunction == HandlerOf(spec)
      ensures tasks == DictSet(old(tasks), sub.name, sub)
      ensures sub.finished && (outcome.Ok? ==> r == Ok(sub.details)) && (outcome.Err? ==> r == outcome)
      ensures name == old(name) && started == old(started) && finished == old(finished)
      ensures resolved == old(resolved) && exception == old(exception) && statusCode == old(statusCode)
      ensures details == old(details) && exclude == old(exclude)
      ensures args == old(args) && taskFunction == old(taskFunction)
    {
      sub := new Task(AnonymousNameCorrected(|tasks|), Null, spec);
      r := RunSubtask(sub, outcome);
    }
  }

  /** The message of the constructor's TypeError. */
  const NameError: string := "Task constructor requires a string for the name argument"

  /** `new Task(name, args, task)`: a name that is not a string throws. */
  method NewTask(name: JsValue, args: JsValue, spec: TaskSpec) returns (r: Result<Task>)
    ensures r.Err? <==> !name.Str?
    ensures r.Err? ==> r.error == TypeError(NameError)
    ensures r.Ok? ==> && fresh(r.value) && r.value.name == name.s && r.value.Status() == Some(102)
                      && r.value.taskFunction == HandlerOf(spec) && r.value.tasks == []
  {
    if !name.Str? {
      return Err(TypeError(NameError));
    }
    var t := new Task(name.s, args, spec);
    return Ok(t);
  }

  /** A task whose handler registers two subtasks, each returning its own
      name, and returns their results: everything ends with status 200, the
      subtasks are filed under their names, and the details list both. */
  method RunsSubtasks() returns (root: Task, sub1: Task, sub2: Task)
    ensures root.Status() == Some(200) && root.exception.None?
    ensures sub1.Status() == Some(200) && sub2.Status() == Some(200)
    ensures Keys(root.tasks) == ["subtask1", "subtask2"]
    ensures Get(root.tasks, "subtask1") == Some(sub1) && Get(root.tasks, "subtask2") == Some(sub2)
    ensures root.details == Arr([Str("subtask1"), Str("subtask2")])
  {
    sub1 := new Task("subtask1", Arr([]), Options(None, [], Func(1)));
    sub2 := new Task("subtask2", Arr([]), Options(None, [], Func(2)));
    root := new Task("root", Arr([]), Options(None, [], Func(0)));
    root.Start();
    var d1 := root.RunSubtask(sub1, Ok(Str(sub1.name)));
    assert root.tasks == [("subtask1", sub1)];
    var d2 := root.RunSubtask(sub2, Ok(Str(sub2.name)));
    assert root.tasks == [("subtask1", sub1)] + DictSet([], "subtask2", sub2);
    var _ := root.Settle(Ok(Arr([d1.value, d2.value])));
    assert root.tasks == [("subtask1", sub1), ("subtask2", sub2)];
    assert root.tasks[1..] == [("subtask2", sub2)] && root.tasks[1..][1..] == [];
    assert Keys(root.tasks) == ["subtask1"] + Keys([("subtask2", sub2)]);
    assert Keys([("subtask2", sub2)]) == ["subtask2"];
  }

  /** `toJSON` drops the excluded key of the details object and keeps the
      rest. */
  method ExcludesProperties() returns (t: Task, json: TaskJson)
    ensures json.details == Obj(map["included" := Bool(true)])
  {
    t := new Task("test", Arr([]), Options(None, ["excluded"], Func(0)));
    var _ := t.Run(Ok(Obj(map["included" := Bool(true), "excluded" := Bool(true)])));
    json := t.ToJson();
    assert json.details.fields.Keys == {"included"};
  }

  /** A handler that rejects with nothing: `error(undefined)` records the
      default `true`, the status is 500, and the rejection is passed on as
      it came. */
  method UndefinedRejection() returns (t: Task, r: Result<JsValue>)
    ensures r == Err(Thrown(Undefined))
    ensures t.exception == Some(Thrown(Bool(true))) && t.Status() == Some(500) && !t.resolved
  {
    t := new Task("test", Arr([]), Options(None, [], Func(0)));
    r := t.Run(Err(Thrown(Undefined)));
  }

  /** As written, two one-argument subtasks share one entry: the second
      replaces the first. */
  method AnonymousSubtasksCollide() returns (root: Task, first: Task, second: Task)
    ensures root.tasks == [(AnonymousName, second)] && first != second
  {
    root := new Task("root", Null, EmptyOptions);
    var _, a := root.RunAnonymousSubtask(Handler(Func(1)), Ok(Null));
    var _, b := root.RunAnonymousSubtask(Handler(Func(2)), Ok(Null));
    first, second := a, b;
  }

  /** As intended, each one-argument subtask keeps its own entry. */
  method AnonymousSubtasksKept() returns (root: Task, first: Task, second: Task)
    ensures root.tasks == [("task-0", first), ("task-1", second)]
  {
    root := new Task("root", Null, EmptyOptions);
    var _, a := root.RunAnonymousSubtaskCorrected(Handler(Func(1)), Ok(Null));
    AnonymousNamesDistinct(0, 1);
    var _, b := root.RunAnonymousSubtaskCorrected(Handler(Func(2)), Ok(Null));
    first, second := a, b;
    assert AnonymousNameCorrected(0) == "task-0" && AnonymousNameCorrected(1) == "task-1";
  }
}
