// run_tool of agents/shared/tool_runtime.py. The handler is the one await: the
// memo table is read before it and written after it, and calls interleave there.

module ToolRuntimes {
  import opened Wrappers
  import opened ToolValues

  /** A request; a handler and a validation model are named by number. */
  datatype Call = Call(tool: string, handler: Option<int>, payload: Any, model: Option<int>, idempotent: bool)

  /** What awaiting the handler comes to; a validation error of its own is answered as one of the payload's. */
  datatype Attempt = Returns(value: Any) | TimesOut | FailsValidation | Raises(why: string)

  datatype Fault = TimedOut | InvalidPayload | NotRegistered | HandlerRaised(why: string)

  datatype Reply = Answered(data: Any, cached: bool) | Refused(fault: Fault)

  /** How a call is keyed, and what a result is turned into before it is kept or answered. */
  datatype Memo = Memo(key: (string, Any) -> string, normal: Any -> Any)

  /** The keys and values of the Python code. */
  function PythonMemo(lib: Library): Memo {
    Memo((tool, payload) => CacheKey(tool, payload, lib), v => Normalize(v, lib))
  }

  type Cache = map<string, Any>

  type Tools = map<string, int>

  /** Validation gives the payload as the model dumps it, or nothing. */
  type Validator = (int, Any) -> Option<Any>

  /** A call past the memo table: its handler, with the payload it was given, is running. */
  datatype Request = Request(tool: string, handler: int, payload: Any, idempotent: bool)

  datatype Admission = Replied(reply: Reply) | Runs(request: Request)

  function Validated(call: Call, validate: Validator): Option<Any> {
    match call.model
    case None => Some(call.payload)
    case Some(model) => validate(model, call.payload)
  }

  /** The part of a call up to the await of its handler. */
  function Admit(cache: Cache, tools: Tools, call: Call, validate: Validator, memo: Memo): Admission {
    match Validated(call, validate)
    case None => Replied(Refused(InvalidPayload))
    case Some(payload) =>
      var key := memo.key(call.tool, payload);
      if call.idempotent && key in cache then Replied(Answered(cache[key], true))
      else match call.handler
           case Some(h) => Runs(Request(call.tool, h, payload, call.idempotent))
           case None =>
             if call.tool in tools then Runs(Request(call.tool, tools[call.tool], payload, call.idempotent))
             else Replied(Refused(NotRegistered))
  }

  /** The memo table after the handler is done. */
  function Remember(cache: Cache, req: Request, attempt: Attempt, memo: Memo): Cache {
    if req.idempotent && attempt.Returns?
    then cache[memo.key(req.tool, req.payload) := memo.normal(attempt.value)]
    else cache
  }

  function ReplyTo(attempt: Attempt, memo: Memo): Reply {
    match attempt
    case Returns(value) => Answered(memo.normal(value), false)
    case TimesOut => Refused(TimedOut)
    case FailsValidation => Refused(InvalidPayload)
    case Raises(why) => Refused(HandlerRaised(why))
  }

  class ToolRuntime {
    const memo: Memo
    var cache: Cache
    var tools: Tools

    constructor (memo: Memo)
      ensures this.memo == memo && cache == map[] && tools == map[]
    {
      this.memo := memo;
      cache, tools := map[], map[];
    }

    method RegisterTool(name: string, handler: int)
      modifies this`tools
      ensures tools == old(tools)[name := handler]
    {
      tools := tools[name := handler];
    }

    method GetTool(name: string) returns (r: Result<int, Fault>)
      ensures r == if name in tools then Success(tools[name]) else Failure(NotRegistered)
    {
      if name !in tools {
        return Failure(NotRegistered);
      }
      r := Success(tools[name]);
    }

    /** An uninterrupted call; `run` is what awaiting a handler comes to. */
    method RunTool(call: Call, validate: Validator, run: (int, Any) -> Attempt) returns (r: Reply)
      modifies this`cache
      ensures match Admit(old(cache), tools, call, validate, memo)
              case Replied(reply) => r == reply && cache == old(cache)
              case Runs(req) =>
                var attempt := run(req.handler, req.payload);
                r == ReplyTo(attempt, memo) && cache == Remember(old(cache), req, attempt, memo)
    {
      var payload := call.payload;
      if call.model.Some? {
        var dumped := validate(call.model.value, payload);
        if dumped.None? {
          return Refused(InvalidPayload);
        }
        payload := dumped.value;
      }
      if call.idempotent {
        var key := memo.key(call.tool, payload);
        if key in cache {
          return Answered(cache[key], true);
        }
      }
      var handler;
      if call.handler.Some? {
        handler := call.handler.value;
      } else {
        var found := GetTool(call.tool);
        if found.Failure? {
          return Refused(found.error);
        }
        handler := found.value;
      }
      var attempt := run(handler, payload);
      match attempt
      case TimesOut => return Refused(TimedOut);
      case FailsValidation => return Refused(InvalidPayload);
      case Raises(why) => return Refused(HandlerRaised(why));
      case Returns(value) =>
        var normalized := memo.normal(value);
        if call.idempotent {
          cache := cache[memo.key(call.tool, payload) := normalized];
        }
        r := Answered(normalized, false);
    }
  }
}

// What a call answers, case by case.
module ToolAnswers {
  import opened Wrappers
  import opened ToolValues
  import opened ToolImages
  import opened ToolRuntimes

  /** The call comes to a payload: its own, or what its validation model dumps for it. */
  ghost predicate ComesTo(call: Call, validate: Validator, payload: Any) {
    if call.model.None? then payload == call.payload else validate(call.model.value, call.payload) == Some(payload)
  }

  /** The handler of the call, its own before a registered one. */
  ghost predicate Handles(tools: Tools, call: Call, handler: int) {
    if call.handler.Some? then handler == call.handler.value else call.tool in tools && handler == tools[call.tool]
  }

  /** What the runtime replies and leaves in its memo table. */
  function Answer(cache: Cache, tools: Tools, call: Call, validate: Validator, lib: Library, run: (int, Any) -> Attempt)
    : (Reply, Cache)
  {
    match Admit(cache, tools, call, validate, PythonMemo(lib))
    case Replied(reply) => (reply, cache)
    case Runs(req) =>
      var attempt := run(req.handler, req.payload);
      (ReplyTo(attempt, PythonMemo(lib)), Remember(cache, req, attempt, PythonMemo(lib)))
  }

  /** Nothing is kept of a call whose payload is invalid or whose tool is unknown. */
  lemma RefusedCall(cache: Cache, tools: Tools, call: Call, validate: Validator, lib: Library,
          run: (int, Any) -> Attempt)
    ensures (forall payload :: !ComesTo(call, validate, payload)) ==>
              Answer(cache, tools, call, validate, lib, run) == (Refused(InvalidPayload), cache)
    ensures forall payload | ComesTo(call, validate, payload)
                && !(call.idempotent && CacheKey(call.tool, payload, lib) in cache)
                && call.handler.None? && call.tool !in tools ::
              Answer(cache, tools, call, validate, lib, run) == (Refused(NotRegistered), cache)
  {
    if call.model.None? {
      assert ComesTo(call, validate, call.payload);
    } else if validate(call.model.value, call.payload).Some? {
      assert ComesTo(call, validate, validate(call.model.value, call.payload).value);
    }
  }

  /** An idempotent call whose key is in the memo table is answered from it, registered or not. */
  lemma RememberedCall(cache: Cache, tools: Tools, call: Call, validate: Validator, lib: Library,
          run: (int, Any) -> Attempt, payload: Any)
    requires ComesTo(call, validate, payload) && call.idempotent && CacheKey(call.tool, payload, lib) in cache
    ensures Answer(cache, tools, call, validate, lib, run)
         == (Answered(cache[CacheKey(call.tool, payload, lib)], true), cache)
  {
  }

  /** Every other call runs its handler, with the payload it comes to. */
  lemma AdmittedCall(cache: Cache, tools: Tools, call: Call, validate: Validator, memo: Memo, payload: Any,
          handler: int)
    requires ComesTo(call, validate, payload) && !(call.idempotent && memo.key(call.tool, payload) in cache)
    requires Handles(tools, call, handler)
    ensures Admit(cache, tools, call, validate, memo) == Runs(Request(call.tool, handler, payload, call.idempotent))
  {
  }

  /**
   * What the handler returns is answered as the JSON value that it becomes, and that value is kept for the key if
   * the call is idempotent.
   */
  lemma ReturningCall(cache: Cache, tools: Tools, call: Call, validate: Validator, lib: Library,
          run: (int, Any) -> Attempt, payload: Any, handler: int, data: Any)
    requires ComesTo(call, validate, payload) && !(call.idempotent && CacheKey(call.tool, payload, lib) in cache)
    requires Handles(tools, call, handler)
    requires run(handler, payload).Returns? && Becomes(run(handler, payload).value, data, lib)
    ensures Answer(cache, tools, call, validate, lib, run)
         == (Answered(data, false),
             if call.idempotent then cache[CacheKey(call.tool, payload, lib) := data] else cache)
  {
    AdmittedCall(cache, tools, call, validate, PythonMemo(lib), payload, handler);
    NormalizesExactly(run(handler, payload).value, data, lib);
  }

  /** A handler that returns nothing is answered by its fault, and nothing is kept. */
  lemma FailingCall(cache: Cache, tools: Tools, call: Call, validate: Validator, lib: Library,
          run: (int, Any) -> Attempt, payload: Any, handler: int)
    requires ComesTo(call, validate, payload) && !(call.idempotent && CacheKey(call.tool, payload, lib) in cache)
    requires Handles(tools, call, handler) && !run(handler, payload).Returns?
    ensures Answer(cache, tools, call, validate, lib, run).1 == cache
    ensures Answer(cache, tools, call, validate, lib, run).0
         == match run(handler, payload)
            case TimesOut => Refused(TimedOut)
            case FailsValidation => Refused(InvalidPayload)
            case Raises(why) => Refused(HandlerRaised(why))
  {
    AdmittedCall(cache, tools, call, validate, PythonMemo(lib), payload, handler);
  }
}

module ToolRuns {
  import opened Wrappers
  import opened ToolValues
  import opened ToolRuntimes
  import opened ToolAnswers

  datatype Task = Waiting(request: Request) | Done

  /** A reply, with the tool and the validated payload it answers. */
  datatype Event = Event(tool: string, payload: Any, idempotent: bool, reply: Reply)

  datatype System = System(cache: Cache, tools: Tools, tasks: seq<Task>, events: seq<Event>)

  const START := System(map[], map[], [], [])

  datatype Action =
    | Register(name: string, handler: int)
    | Begin(call: Call)
    | Finish(task: nat, attempt: Attempt)

  function DoBegin(s: System, call: Call, validate: Validator, memo: Memo): System {
    match Admit(s.cache, s.tools, call, validate, memo)
    case Runs(req) => s.(tasks := s.tasks + [Waiting(req)])
    case Replied(reply) =>
      var payload := match Validated(call, validate) case Some(p) => p case None => call.payload;
      s.(tasks := s.tasks + [Done], events := s.events + [Event(call.tool, payload, call.idempotent, reply)])
  }

  function DoFinish(s: System, t: nat, attempt: Attempt, memo: Memo): System
    requires t < |s.tasks| && s.tasks[t].Waiting?
  {
    var req := s.tasks[t].request;
    s.(cache := Remember(s.cache, req, attempt, memo),
       tasks := s.tasks[t := Done],
       events := s.events + [Event(req.tool, req.payload, req.idempotent, ReplyTo(attempt, memo))])
  }

  /** One step of one call. An action that cannot happen in the state changes nothing. */
  function Apply(s: System, a: Action, validate: Validator, memo: Memo): System {
    match a
    case Register(name, handler) => s.(tools := s.tools[name := handler])
    case Begin(call) => DoBegin(s, call, validate, memo)
    case Finish(t, attempt) =>
      if t < |s.tasks| && s.tasks[t].Waiting? then DoFinish(s, t, attempt, memo) else s
  }

  function Run(actions: seq<Action>, validate: Validator, memo: Memo): System {
    if actions == [] then START
    else Apply(Run(actions[..|actions| - 1], validate, memo), actions[|actions| - 1], validate, memo)
  }

  /** The two steps of a call, one after the other, do what the uninterrupted call does, and leave one event. */
  lemma UninterruptedCallAnswers(s: System, call: Call, validate: Validator, lib: Library, run: (int, Any) -> Attempt)
    ensures var memo, (reply, cache) := PythonMemo(lib), Answer(s.cache, s.tools, call, validate, lib, run);
      var begun := Apply(s, Begin(call), validate, memo);
      var ended := match Admit(s.cache, s.tools, call, validate, memo)
                   case Replied(_) => begun
                   case Runs(req) => Apply(begun, Finish(|s.tasks|, run(req.handler, req.payload)), validate, memo);
      && ended.cache == cache && ended.tools == s.tools && ended.tasks == s.tasks + [Done]
      && |ended.events| == |s.events| + 1 && ended.events[..|s.events|] == s.events
      && ended.events[|s.events|].tool == call.tool && ended.events[|s.events|].idempotent == call.idempotent
      && ended.events[|s.events|].reply == reply
  {
  }

  // --- the assumption ------------------------------------------------------------------

  /** What a tool gives for a payload. */
  type Meaning = (string, Any) -> Any

  /** A tool does not tell apart two calls with one key. */
  ghost predicate Respects(meaning: Meaning, memo: Memo) {
    forall s, p, t, q :: memo.key(s, p) == memo.key(t, q) ==>
      memo.normal(meaning(s, p)) == memo.normal(meaning(t, q))
  }

  /** Every handler that returns for an idempotent call returns what its tool means, whichever handler it is. */
  ghost predicate Faithful(actions: seq<Action>, meaning: Meaning, validate: Validator, memo: Memo) {
    if actions == [] then true
    else
      var before := Run(actions[..|actions| - 1], validate, memo);
      Faithful(actions[..|actions| - 1], meaning, validate, memo)
      && match actions[|actions| - 1]
         case Finish(t, Returns(value)) =>
           t < |before.tasks| && before.tasks[t].Waiting? && before.tasks[t].request.idempotent ==>
             value == meaning(before.tasks[t].request.tool, before.tasks[t].request.payload)
         case _ => true
  }

  // --- what every step keeps -------------------------------------------------------------

  /** The data that the call gets without a memo table. */
  function Uncached(meaning: Meaning, tool: string, payload: Any, memo: Memo): Any {
    memo.normal(meaning(tool, payload))
  }

  predicate Succeeded(e: Event, key: string, memo: Memo) {
    e.idempotent && e.reply.Answered? && !e.reply.cached && memo.key(e.tool, e.payload) == key
  }

  /** What the last handler that returned for the key gave, if one did. */
  function LastGiven(events: seq<Event>, key: string, memo: Memo): Option<Any> {
    if events == [] then None
    else if Succeeded(events[|events| - 1], key, memo) then Some(events[|events| - 1].reply.data)
    else LastGiven(events[..|events| - 1], key, memo)
  }

  lemma LastGivenOfLonger(events: seq<Event>, e: Event, key: string, memo: Memo)
    ensures LastGiven(events + [e], key, memo)
        == if Succeeded(e, key, memo) then Some(e.reply.data) else LastGiven(events, key, memo)
  {
    assert (events + [e])[..|events + [e]| - 1] == events;
  }

  function Held(cache: Cache, key: string): Option<Any> {
    if key in cache then Some(cache[key]) else None
  }

  lemma FinishKeepsGiven(s: System, t: nat, attempt: Attempt, memo: Memo, key: string)
    requires LastGiven(s.events, key, memo) == Held(s.cache, key)
    requires t < |s.tasks| && s.tasks[t].Waiting?
    ensures LastGiven(DoFinish(s, t, attempt, memo).events, key, memo) == Held(DoFinish(s, t, attempt, memo).cache, key)
  {
    var req := s.tasks[t].request;
    LastGivenOfLonger(s.events, Event(req.tool, req.payload, req.idempotent, ReplyTo(attempt, memo)), key, memo);
  }

  lemma BeginKeepsGiven(s: System, call: Call, validate: Validator, memo: Memo, key: string)
    ensures LastGiven(DoBegin(s, call, validate, memo).events, key, memo) == LastGiven(s.events, key, memo)
  {
    match Admit(s.cache, s.tools, call, validate, memo)
    case Runs(_) =>
    case Replied(reply) =>
      var payload := match Validated(call, validate) case Some(p) => p case None => call.payload;
      LastGivenOfLonger(s.events, Event(call.tool, payload, call.idempotent, reply), key, memo);
  }

  /** The memo table holds exactly what handlers gave: nothing from a call that failed. */
  lemma {:induction false} CacheIsWhatHandlersGave(actions: seq<Action>, validate: Validator, memo: Memo, key: string)
    ensures LastGiven(Run(actions, validate, memo).events, key, memo) == Held(Run(actions, validate, memo).cache, key)
  {
    if actions != [] {
      var init, a := actions[..|actions| - 1], actions[|actions| - 1];
      CacheIsWhatHandlersGave(init, validate, memo, key);
      var s := Run(init, validate, memo);
      match a
      case Register(_, _) =>
      case Begin(call) => BeginKeepsGiven(s, call, validate, memo, key);
      case Finish(t, attempt) =>
        if t < |s.tasks| && s.tasks[t].Waiting? {
          FinishKeepsGiven(s, t, attempt, memo, key);
        }
    }
  }

  /** A call is answered from the memo table exactly if it is idempotent, valid, and a handler returned for its key. */
  lemma {:induction false} AnswersFromCacheExactly(actions: seq<Action>, call: Call, validate: Validator, memo: Memo)
    requires Validated(call, validate).Some?
    ensures var s := Run(actions, validate, memo);
      var given := LastGiven(s.events, memo.key(call.tool, Validated(call, validate).value), memo);
      if call.idempotent && given.Some?
      then Admit(s.cache, s.tools, call, validate, memo) == Replied(Answered(given.value, true))
      else forall data :: Admit(s.cache, s.tools, call, validate, memo) != Replied(Answered(data, true))
  {
    CacheIsWhatHandlersGave(actions, validate, memo, memo.key(call.tool, Validated(call, validate).value));
  }

  ghost predicate Transparent(e: Event, meaning: Meaning, memo: Memo) {
    e.idempotent && e.reply.Answered? ==> e.reply.data == Uncached(meaning, e.tool, e.payload, memo)
  }

  /** Every entry is the uncached data of every call with its key. */
  ghost predicate Memoizes(s: System, meaning: Meaning, memo: Memo) {
    forall tool, payload :: memo.key(tool, payload) in s.cache ==>
      s.cache[memo.key(tool, payload)] == Uncached(meaning, tool, payload, memo)
  }

  lemma RememberMemoizes(s: System, req: Request, attempt: Attempt, meaning: Meaning, memo: Memo)
    requires Respects(meaning, memo)
    requires Memoizes(s, meaning, memo)
    requires req.idempotent && attempt.Returns? ==> attempt.value == meaning(req.tool, req.payload)
    ensures Memoizes(s.(cache := Remember(s.cache, req, attempt, memo)), meaning, memo)
  {
    if req.idempotent && attempt.Returns? {
      var cache := Remember(s.cache, req, attempt, memo);
      forall tool, payload | memo.key(tool, payload) in cache
        ensures cache[memo.key(tool, payload)] == Uncached(meaning, tool, payload, memo)
      {
      }
    }
  }

  lemma {:induction false} EntriesAreUncachedData(actions: seq<Action>, meaning: Meaning, validate: Validator,
          memo: Memo)
    requires Respects(meaning, memo)
    requires Faithful(actions, meaning, validate, memo)
    ensures Memoizes(Run(actions, validate, memo), meaning, memo)
  {
    if actions != [] {
      var init, a := actions[..|actions| - 1], actions[|actions| - 1];
      EntriesAreUncachedData(init, meaning, validate, memo);
      var s := Run(init, validate, memo);
      if a.Finish? && a.task < |s.tasks| && s.tasks[a.task].Waiting? {
        RememberMemoizes(s, s.tasks[a.task].request, a.attempt, meaning, memo);
      }
    }
  }

  lemma NextReplyIsTransparent(s: System, a: Action, meaning: Meaning, validate: Validator, memo: Memo)
    requires Memoizes(s, meaning, memo)
    requires a.Finish? && a.attempt.Returns? && a.task < |s.tasks| && s.tasks[a.task].Waiting?
        && s.tasks[a.task].request.idempotent
      ==> a.attempt.value == meaning(s.tasks[a.task].request.tool, s.tasks[a.task].request.payload)
    ensures var s' := Apply(s, a, validate, memo);
      |s.events| <= |s'.events| <= |s.events| + 1
      && s'.events[..|s.events|] == s.events
      && (|s'.events| == |s.events| + 1 ==> Transparent(s'.events[|s.events|], meaning, memo))
  {
  }

  lemma {:induction false} RepliesAreTransparent(actions: seq<Action>, meaning: Meaning, validate: Validator,
          memo: Memo, i: nat)
    requires Respects(meaning, memo)
    requires Faithful(actions, meaning, validate, memo)
    requires i < |Run(actions, validate, memo).events|
    ensures Transparent(Run(actions, validate, memo).events[i], meaning, memo)
  {
    if actions != [] {
      var init, a := actions[..|actions| - 1], actions[|actions| - 1];
      var s := Run(init, validate, memo);
      EntriesAreUncachedData(init, meaning, validate, memo);
      NextReplyIsTransparent(s, a, meaning, validate, memo);
      if i < |s.events| {
        RepliesAreTransparent(init, meaning, validate, memo, i);
        assert Run(actions, validate, memo).events[i] == s.events[i];
      }
    }
  }

  /** A tool does not tell apart two payloads, or two tool names, with the same JSON text. */
  ghost predicate IsFunctionOfJson(meaning: Meaning, lib: Library) {
    forall s, p, t, q :: lib.scalar(Text(s)) == lib.scalar(Text(t)) && SamePayload(p, q, lib) ==>
      Normalize(meaning(s, p), lib) == Normalize(meaning(t, q), lib)
  }

  lemma FunctionsOfJsonRespectKeys(meaning: Meaning, lib: Library)
    requires lib.Sound() && lib.CollisionFree() && IsFunctionOfJson(meaning, lib)
    ensures Respects(meaning, PythonMemo(lib))
  {
    var memo := PythonMemo(lib);
    forall s, p, t, q | memo.key(s, p) == memo.key(t, q)
      ensures memo.normal(meaning(s, p)) == memo.normal(meaning(t, q))
    {
      KeysAgreeExactly(s, p, t, q, lib);
    }
  }

  /** In every run, however calls interleave, an idempotent call that succeeds gets the data it would get uncached. */
  lemma CachingIsTransparent(actions: seq<Action>, meaning: Meaning, validate: Validator, lib: Library, i: nat)
    requires lib.Sound() && lib.CollisionFree() && IsFunctionOfJson(meaning, lib)
    requires Faithful(actions, meaning, validate, PythonMemo(lib))
    requires i < |Run(actions, validate, PythonMemo(lib)).events|
    ensures var e := Run(actions, validate, PythonMemo(lib)).events[i];
      e.idempotent && e.reply.Answered? ==> e.reply.data == Normalize(meaning(e.tool, e.payload), lib)
  {
    FunctionsOfJsonRespectKeys(meaning, lib);
    RepliesAreTransparent(actions, meaning, validate, PythonMemo(lib), i);
  }

  // --- when a cached answer is the one of the handler of now --------------------------------

  /** What each handler gives for a payload. */
  type Gives = (int, Any) -> Any

  /** An action with the value that the handler gives, where it returns. */
  function Played(s: System, a: Action, gives: Gives): Action {
    match a
    case Finish(t, Returns(_)) =>
      if t < |s.tasks| && s.tasks[t].Waiting?
      then Finish(t, Returns(gives(s.tasks[t].request.handler, s.tasks[t].request.payload)))
      else a
    case _ => a
  }

  /** The run in which every handler that returns gives what `gives` says. */
  function RunWith(actions: seq<Action>, gives: Gives, validate: Validator, memo: Memo): System {
    if actions == [] then START
    else
      var s := RunWith(actions[..|actions| - 1], gives, validate, memo);
      Apply(s, Played(s, actions[|actions| - 1], gives), validate, memo)
  }

  /** No handler tells apart two payloads with one key. */
  ghost predicate Keyed(gives: Gives, memo: Memo) {
    forall h, s, p, t, q :: memo.key(s, p) == memo.key(t, q) ==> memo.normal(gives(h, p)) == memo.normal(gives(h, q))
  }

  /** The states of two runs differ in values only. */
  predicate SameShape(s: System, t: System) {
    s.cache.Keys == t.cache.Keys && s.tools == t.tools && s.tasks == t.tasks
  }

  lemma StepKeepsShape(s: System, t: System, a: Action, g: Gives, h: Gives, validate: Validator, memo: Memo)
    requires SameShape(s, t)
    ensures SameShape(Apply(s, Played(s, a, g), validate, memo), Apply(t, Played(t, a, h), validate, memo))
  {
  }

  lemma {:induction false} RunsHaveOneShape(actions: seq<Action>, g: Gives, h: Gives, validate: Validator, memo: Memo)
    ensures SameShape(RunWith(actions, g, validate, memo), RunWith(actions, h, validate, memo))
  {
    if actions != [] {
      var init := actions[..|actions| - 1];
      RunsHaveOneShape(init, g, h, validate, memo);
      StepKeepsShape(RunWith(init, g, validate, memo), RunWith(init, h, validate, memo), actions[|actions| - 1],
                     g, h, validate, memo);
    }
  }

  function Nothing(): Gives { (h, p) => Nil }

  /** The idempotent request of the key that an action ends with a returned value, if it does. */
  function Returned(s: System, a: Action, memo: Memo, key: string): Option<Request> {
    match a
    case Finish(t, Returns(_)) =>
      if t < |s.tasks| && s.tasks[t].Waiting? && s.tasks[t].request.idempotent
         && memo.key(s.tasks[t].request.tool, s.tasks[t].request.payload) == key
      then Some(s.tasks[t].request)
      else None
    case _ => None
  }

  /** The request that last returned for the key; what handlers give plays no part in it. */
  function LastRequest(actions: seq<Action>, validate: Validator, memo: Memo, key: string): Option<Request> {
    if actions == [] then None
    else
      var init := actions[..|actions| - 1];
      match Returned(RunWith(init, Nothing(), validate, memo), actions[|actions| - 1], memo, key)
      case Some(req) => Some(req)
      case None => LastRequest(init, validate, memo, key)
  }

  /** What the memo table holds for a key is what the handler of the last request gives for its payload. */
  lemma {:induction false} CacheIsLastRequest(actions: seq<Action>, gives: Gives, validate: Validator, memo: Memo,
          key: string)
    ensures Held(RunWith(actions, gives, validate, memo).cache, key)
         == match LastRequest(actions, validate, memo, key)
            case None => None
            case Some(req) => Some(memo.normal(gives(req.handler, req.payload)))
    ensures var last := LastRequest(actions, validate, memo, key);
      last.Some? ==> memo.key(last.value.tool, last.value.payload) == key
  {
    if actions != [] {
      var init := actions[..|actions| - 1];
      CacheIsLastRequest(init, gives, validate, memo, key);
      RunsHaveOneShape(init, gives, Nothing(), validate, memo);
    }
  }

  /** The handler that a call made now would run. */
  function HandlerOf(tools: Tools, call: Call): Option<int> {
    if call.handler.Some? then call.handler
    else if call.tool in tools then Some(tools[call.tool])
    else None
  }

  /** If the call is answered from the memo table, then with the normal form of the value. */
  ghost predicate CachedIs(s: System, call: Call, validate: Validator, memo: Memo, value: Any) {
    forall data | Admit(s.cache, s.tools, call, validate, memo) == Replied(Answered(data, true)) ::
        data == memo.normal(value)
  }

  /** Whatever handlers give, a cached answer to the call is what the handler `now` gives for its payload. */
  ghost predicate AlwaysCurrent(actions: seq<Action>, call: Call, now: int, validate: Validator, memo: Memo)
    requires Validated(call, validate).Some?
  {
    forall gives: Gives | Keyed(gives, memo) ::
      CachedIs(RunWith(actions, gives, validate, memo), call, validate, memo,
          gives(now, Validated(call, validate).value))
  }

  lemma SameHandlerIsCurrent(actions: seq<Action>, call: Call, now: int, gives: Gives, validate: Validator, memo: Memo)
    requires Validated(call, validate).Some? && Keyed(gives, memo)
    requires var last := LastRequest(actions, validate, memo, memo.key(call.tool, Validated(call, validate).value));
      last.Some? ==> last.value.handler == now
    ensures CachedIs(RunWith(actions, gives, validate, memo), call, validate, memo,
        gives(now, Validated(call, validate).value))
  {
    CacheIsLastRequest(actions, gives, validate, memo, memo.key(call.tool, Validated(call, validate).value));
  }

  function OnlyHandler(now: int): Gives { (h, p) => if h == now then Whole(1) else Whole(0) }

  lemma OtherHandlerIsStale(actions: seq<Action>, call: Call, now: int, validate: Validator, memo: Memo)
    requires call.idempotent && Validated(call, validate).Some? && memo.normal(Whole(0)) != memo.normal(Whole(1))
    requires var last := LastRequest(actions, validate, memo, memo.key(call.tool, Validated(call, validate).value));
      last.Some? && last.value.handler != now
    ensures !CachedIs(RunWith(actions, OnlyHandler(now), validate, memo), call, validate, memo, Whole(1))
  {
    var s := RunWith(actions, OnlyHandler(now), validate, memo);
    var key := memo.key(call.tool, Validated(call, validate).value);
    CacheIsLastRequest(actions, OnlyHandler(now), validate, memo, key);
    assert Admit(s.cache, s.tools, call, validate, memo) == Replied(Answered(s.cache[key], true));
  }

  /**
   * Cached answers to an idempotent call are those of the handler it would run now, whatever handlers give,
   * exactly if the last request that returned for its key ran that same handler, or none returned.
   */
  lemma CachedAnswerIsCurrentExactly(actions: seq<Action>, call: Call, now: int, validate: Validator, memo: Memo)
    requires call.idempotent && Validated(call, validate).Some? && memo.normal(Whole(0)) != memo.normal(Whole(1))
    requires HandlerOf(RunWith(actions, Nothing(), validate, memo).tools, call) == Some(now)
    ensures var last := LastRequest(actions, validate, memo, memo.key(call.tool, Validated(call, validate).value));
      AlwaysCurrent(actions, call, now, validate, memo) <==> last.None? || last.value.handler == now
  {
    var last := LastRequest(actions, validate, memo, memo.key(call.tool, Validated(call, validate).value));
    if last.Some? && last.value.handler != now {
      OtherHandlerIsStale(actions, call, now, validate, memo);
      assert Keyed(OnlyHandler(now), memo);
    } else {
      forall gives: Gives | Keyed(gives, memo)
        ensures CachedIs(RunWith(actions, gives, validate, memo), call, validate, memo,
            gives(now, Validated(call, validate).value))
      {
        SameHandlerIsCurrent(actions, call, now, gives, validate, memo);
      }
    }
  }

  /** So it is for the keys and the normal forms of the Python code. */
  lemma PythonAnswerIsCurrentExactly(actions: seq<Action>, call: Call, now: int, validate: Validator, lib: Library)
    requires call.idempotent && Validated(call, validate).Some?
    requires HandlerOf(RunWith(actions, Nothing(), validate, PythonMemo(lib)).tools, call) == Some(now)
    ensures var key := CacheKey(call.tool, Validated(call, validate).value, lib);
      var last := LastRequest(actions, validate, PythonMemo(lib), key);
      AlwaysCurrent(actions, call, now, validate, PythonMemo(lib)) <==> last.None? || last.value.handler == now
  {
    CachedAnswerIsCurrentExactly(actions, call, now, validate, PythonMemo(lib));
  }

  lemma RunOneMore(actions: seq<Action>, a: Action, validate: Validator, memo: Memo)
    ensures Run(actions + [a], validate, memo) == Apply(Run(actions, validate, memo), a, validate, memo)
  {
    assert (actions + [a])[..|actions + [a]| - 1] == actions;
  }

  /** Once a name is given another handler, calls already memoised still get the old one's data. */
  lemma ReregisteredToolStaysStale(payload: Any, first: Any, validate: Validator, memo: Memo)
    ensures var call := Call("t", None, payload, None, true);
      var actions := [Register("t", 1)] + [Begin(call)] + [Finish(0, Returns(first))] + [Register("t", 2)]
          + [Begin(call)];
      var events := Run(actions, validate, memo).events;
      |events| == 2 && events[1] == Event("t", payload, true, Answered(memo.normal(first), true))
  {
    var call := Call("t", None, payload, None, true);
    var one: seq<Action> := [Register("t", 1)];
    var two := one + [Begin(call)];
    var three := two + [Finish(0, Returns(first))];
    var four := three + [Register("t", 2)];
    assert [] + one == one;
    RunOneMore([], Register("t", 1), validate, memo);
    RunOneMore(one, Begin(call), validate, memo);
    assert Run(two, validate, memo).tasks == [Waiting(Request("t", 1, payload, true))];
    RunOneMore(two, Finish(0, Returns(first)), validate, memo);
    assert Run(three, validate, memo).cache == map[memo.key("t", payload) := memo.normal(first)];
    RunOneMore(three, Register("t", 2), validate, memo);
    RunOneMore(four, Begin(call), validate, memo);
  }
}
