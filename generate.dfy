/** The run triggered by the generate button (the `if start:` block of
    app.py): validation, prompt assembly, the first model call, at most one
    corrective call, length enforcement, logging and the final status.

    The model service and the spreadsheet are outside the model: what they
    answer is part of the `World` a run is given, and what the run asks of
    them is recorded, in order, in a trace of `Event`s. */
module Generate {
  import opened PyText
  import opened Helpers
  import opened Prompts

  /** The prompt texts of the page, as `str.format` parses them; their
      wording is not part of the model. */
  datatype Templates = Templates(
    system: Template,      // SYSTEM_PROMPT_BASE
    user: Template,        // USER_PROMPT_TEMPLATE
    outputRules: string,   // the "output_rules" text appended to the user prompt
    fix: Template)         // the corrective instruction f-string

  /** `format` succeeds: each template uses only the names it is given (the
      user template is given every name). */
  predicate TemplatesWellFormed(t: Templates) {
    Closed(t.system, SystemFields) && Closed(t.fix, FixFields)
  }

  /** Deployment configuration: the selected provider and the model
      identifier read once from the secrets. */
  datatype Config = Config(provider: string, model: string)

  /** What one completion request produced: the message content (a missing
      content is `Answered("")`), or an exception, which `call_openai`
      reports and turns into "". */
  datatype Reply = Answered(content: string) | Failed

  /** How `log_to_sheet` ended: a row appended, a silent return because no
      service account is configured, or an exception (reported as an
      information notice). */
  datatype LogStatus = Appended | NoServiceAccount | Raised

  /** Everything a run depends on that the page does not compute itself. */
  datatype World = World(
    netloc: Option<string>,  // urlparse(url).netloc, None if urlparse raised
    clientReady: bool,       // get_openai_client() returned a client
    first: Reply,            // the answer to the first completion request
    second: Reply,           // the answer to the corrective request, if made
    log: LogStatus)

  const MaxTokens: nat := 1000

  /** One request to an external service. */
  datatype Event =
    | ModelCall(model: string, system: string, user: string, maxTokens: nat)
    | LogCall(keyword: string, url: string, contentType: string, language: string,
              chars: int, model: string)

  /** How a run ends, as the user sees it. */
  datatype Outcome =
    | KeywordMissing        // warning, then st.stop()
    | ProviderUnsupported   // error message
    | ClientUnavailable     // get_openai_client() failed, then st.stop()
    | EmptyFirstReply       // st.stop() after an empty first answer
    | Generated(text: string, chars: int, inRange: bool, logNotice: bool)
      // the text shown, its count, success (inRange) or warning, and whether
      // the "log not recorded" notice was shown

  datatype Run = Run(outcome: Outcome, trace: seq<Event>)

  /** `call_openai`'s result: the stripped content, or "" on failure. */
  function ReplyText(r: Reply): string {
    match r
    case Answered(c) => Strip(c)
    case Failed => ""
  }

  /** What `call_openai` returns is already stripped. */
  lemma ReplyTextStripped(r: Reply)
    ensures Strip(ReplyText(r)) == ReplyText(r)
  {
    if r.Answered? {
      StripIdempotent(r.content);
    }
  }

  /** The count lies outside the window [targetMin, targetMax]. */
  predicate OutOfWindow(n: int, form: Form) {
    n < form.targetMin || n > form.targetMax
  }

  /** The system prompt of both requests: the rendered template followed by
      the explicit output marker. */
  function SystemPrompt(b: Bindings, tpl: Templates): string {
    Render(tpl.system, b) + "\n\nOUTPUT:"
  }

  /** The user prompt of the first request: the rendered template followed
      by the output rules. */
  function UserPrompt(b: Bindings, tpl: Templates): string {
    Render(tpl.user, b) + "\n\n" + tpl.outputRules
  }

  /** The corrective instruction. */
  function FixPrompt(b: Bindings, tpl: Templates): string {
    Render(tpl.fix, b)
  }

  /** The text a run ends with, once past the empty-first-answer check. */
  function Draft(form: Form, world: World): string {
    var first := ReplyText(world.first);
    if OutOfWindow(|first|, form) then ReplyText(world.second) else first
  }

  /** What a run does, stage by stage. */
  function Expected(form: Form, cfg: Config, tpl: Templates, world: World): Run
  {
    if Strip(form.keyword) == "" then Run(KeywordMissing, [])
    else if cfg.provider != "OpenAI" then Run(ProviderUnsupported, [])
    else if !world.clientReady then Run(ClientUnavailable, [])
    else
      var b := Bindings(form, CleanDomain(world.netloc));
      var system := SystemPrompt(b, tpl);
      var first := ReplyText(world.first);
      var call := ModelCall(cfg.model, system, UserPrompt(b, tpl), MaxTokens);
      if first == "" then Run(EmptyFirstReply, [call])
      else
        var text := EnforceLength(Strip(Draft(form, world)), form.targetMin, form.targetMax);
        var log := LogCall(form.keyword, form.url, form.contentType.Label(),
                           form.language.Label(), |text|, cfg.model);
        var fix := ModelCall(cfg.model, system, first + "\n\n" + FixPrompt(b, tpl), MaxTokens);
        Run(Generated(text, |text|, !OutOfWindow(|text|, form), world.log == Raised),
            if OutOfWindow(|first|, form) then [call, fix, log] else [call, log])
  }

  /** The run, step by step, as the page executes it. */
  method Generate(form: Form, cfg: Config, tpl: Templates, world: World)
    returns (outcome: Outcome, trace: seq<Event>)
    requires TemplatesWellFormed(tpl)
    ensures Run(outcome, trace) == Expected(form, cfg, tpl, world)
  {
    trace := [];
    if Strip(form.keyword) == "" {
      outcome := KeywordMissing;
      return;
    }
    var domain := CleanDomain(world.netloc);
    var systemPrompt := Render(tpl.system, Bindings(form, domain));
    var userPrompt := Render(tpl.user, Bindings(form, domain));
    if cfg.provider != "OpenAI" {
      outcome := ProviderUnsupported;
      return;
    }
    if !world.clientReady {
      outcome := ClientUnavailable;
      return;
    }
    systemPrompt := systemPrompt + "\n\nOUTPUT:";
    userPrompt := userPrompt + "\n\n" + tpl.outputRules;
    var call := ModelCall(cfg.model, systemPrompt, userPrompt, MaxTokens);
    trace := trace + [call];
    assert trace == [call];
    var content := ReplyText(world.first);
    if content == "" {
      outcome := EmptyFirstReply;
      return;
    }
    var cc := |content|;
    ghost var fixing := OutOfWindow(cc, form);
    ghost var fixCall := ModelCall(cfg.model, systemPrompt, content + "\n\n" + FixPrompt(Bindings(form, domain), tpl), MaxTokens);
    if cc < form.targetMin || cc > form.targetMax {
      var fixPrompt := Render(tpl.fix, Bindings(form, domain));
      var fix := ModelCall(cfg.model, systemPrompt, content + "\n\n" + fixPrompt, MaxTokens);
      trace := trace + [fix];
      assert trace == [call, fix];
      content := ReplyText(world.second);
      cc := |content|;
    }
    assert content == Draft(form, world);
    assert trace == if fixing then [call, fixCall] else [call];
    content := EnforceLength(Strip(content), form.targetMin, form.targetMax);
    cc := |content|;
    var log := LogCall(form.keyword, form.url, form.contentType.Label(),
                       form.language.Label(), cc, cfg.model);
    ghost var before := trace;
    trace := trace + [log];
    if fixing {
      assert before == [call, fixCall];
      assert trace == [call, fixCall, log];
    } else {
      assert trace == [call, log];
    }
    var logNotice := world.log == Raised;
    outcome := Generated(content, cc, !(cc < form.targetMin || cc > form.targetMax), logNotice);
  }

  // ---------------------------------------------------------------------
  // Properties of a run
  // ---------------------------------------------------------------------

  /** The number of model requests in a trace. */
  function Calls(trace: seq<Event>): (n: nat)
    ensures n <= |trace|
  {
    if trace == [] then 0
    else (if trace[0].ModelCall? then 1 else 0) + Calls(trace[1..])
  }

  /** The number of log requests in a trace. */
  function Logs(trace: seq<Event>): (n: nat)
    ensures n <= |trace|
  {
    if trace == [] then 0
    else (if trace[0].LogCall? then 1 else 0) + Logs(trace[1..])
  }

  /** With the page's templates, the system prompt and the corrective
      instruction are fixed by the window and the content type: the keyword,
      the URL, the domain and the other free-text fields never reach them. */
  lemma PromptsIgnoreUserText(form: Form, form': Form, domain: string, domain': string, tpl: Templates)
    requires TemplatesWellFormed(tpl)
    requires form.targetMin == form'.targetMin && form.targetMax == form'.targetMax
    requires form.contentType == form'.contentType
    ensures SystemPrompt(Bindings(form, domain), tpl) == SystemPrompt(Bindings(form', domain'), tpl)
    ensures FixPrompt(Bindings(form, domain), tpl) == FixPrompt(Bindings(form', domain'), tpl)
  {
    SystemPromptDependsOnWindowOnly(tpl.system, Bindings(form, domain), Bindings(form', domain'));
    RenderOnlyUsesItsFields(tpl.fix, Bindings(form, domain), Bindings(form', domain'), FixFields);
  }

  /** A blank keyword (whitespace only, or empty) stops the run before any
      request, and it is the only way to end with that warning. */
  lemma BlankKeywordHalts(form: Form, cfg: Config, tpl: Templates, world: World)
    ensures Expected(form, cfg, tpl, world).outcome == KeywordMissing <==> AllSpace(form.keyword)
    ensures AllSpace(form.keyword) ==> Expected(form, cfg, tpl, world).trace == []
  {
    StripEmptyIff(form.keyword);
  }

  /** Without a model answer nothing is logged; a run that stops before the
      first request makes none. */
  lemma EarlyStops(form: Form, cfg: Config, tpl: Templates, world: World)
    ensures var run := Expected(form, cfg, tpl, world);
            (run.outcome == KeywordMissing || run.outcome == ProviderUnsupported
             || run.outcome == ClientUnavailable) ==> run.trace == []
    ensures var run := Expected(form, cfg, tpl, world);
            run.outcome == EmptyFirstReply <==>
              !AllSpace(form.keyword) && cfg.provider == "OpenAI" && world.clientReady
              && ReplyText(world.first) == ""
    ensures var run := Expected(form, cfg, tpl, world);
            run.outcome == EmptyFirstReply ==> Calls(run.trace) == 1 && Logs(run.trace) == 0
  {
    StripEmptyIff(form.keyword);
  }

  /** A completed run makes one corrective request exactly when the first
      answer's length is outside the window, never more than one; the
      correction reuses the system prompt and sends the first answer followed
      by the corrective instruction. It logs exactly once, last. */
  lemma CorrectionPolicy(form: Form, cfg: Config, tpl: Templates, world: World)
    requires Expected(form, cfg, tpl, world).outcome.Generated?
    ensures var run, first := Expected(form, cfg, tpl, world), ReplyText(world.first);
            var b := Bindings(form, CleanDomain(world.netloc));
            && 1 <= Calls(run.trace) <= 2
            && (Calls(run.trace) == 2 <==> OutOfWindow(|first|, form))
            && Logs(run.trace) == 1 && run.trace[|run.trace| - 1].LogCall?
            && run.trace[0].ModelCall? && run.trace[0].system == SystemPrompt(b, tpl)
    ensures var run, first := Expected(form, cfg, tpl, world), ReplyText(world.first);
            var b := Bindings(form, CleanDomain(world.netloc));
            OutOfWindow(|first|, form) ==>
              && run.trace[1].ModelCall?
              && run.trace[1].system == run.trace[0].system
              && run.trace[1].user == first + "\n\n" + FixPrompt(b, tpl)
  {
    var run := Expected(form, cfg, tpl, world);
    var first := ReplyText(world.first);
    var call := run.trace[0];
    var log := run.trace[|run.trace| - 1];
    if OutOfWindow(|first|, form) {
      var fix := run.trace[1];
      assert run.trace == [call, fix, log];
      assert run.trace[1..] == [fix, log] && [fix, log][1..] == [log] && [log][1..] == [];
      assert Calls([log]) == 0 && Logs([log]) == 1;
    } else {
      assert run.trace == [call, log];
      assert run.trace[1..] == [log] && [log][1..] == [];
    }
  }

  /** Every run makes at most two model requests and at most one log
      request. */
  lemma AtMostOneCorrection(form: Form, cfg: Config, tpl: Templates, world: World)
    ensures Calls(Expected(form, cfg, tpl, world).trace) <= 2
    ensures Logs(Expected(form, cfg, tpl, world).trace) <= 1
  {
    var run := Expected(form, cfg, tpl, world);
    if run.outcome.Generated? {
      CorrectionPolicy(form, cfg, tpl, world);
    } else if run.outcome == EmptyFirstReply {
      EarlyStops(form, cfg, tpl, world);
    }
  }

  /** The count reported and logged is the length of the enforced text; it
      never exceeds the maximum of a non-negative window, and success is
      shown exactly when it lies inside the window. */
  lemma ReportedCount(form: Form, cfg: Config, tpl: Templates, world: World)
    requires Expected(form, cfg, tpl, world).outcome.Generated?
    ensures var run := Expected(form, cfg, tpl, world);
            var o, log := run.outcome, run.trace[|run.trace| - 1];
            && o.text == EnforceLength(Strip(Draft(form, world)), form.targetMin, form.targetMax)
            && o.chars == |o.text|
            && log.LogCall? && log.chars == o.chars && log.model == cfg.model
            && (form.targetMax >= 0 ==> o.chars <= form.targetMax)
            && (o.inRange <==> form.targetMin <= o.chars <= form.targetMax)
            && IsPrefix(o.text, Draft(form, world))
  {
    ReplyTextStripped(world.first);
    ReplyTextStripped(world.second);
    StripShortens(Draft(form, world));
  }

  /** A first answer already inside the window is shown and logged exactly
      as received: no correction, no cut. */
  lemma InWindowAnswerKept(form: Form, cfg: Config, tpl: Templates, world: World)
    requires !AllSpace(form.keyword) && cfg.provider == "OpenAI" && world.clientReady
    requires ReplyText(world.first) != "" && !OutOfWindow(|ReplyText(world.first)|, form)
    ensures Expected(form, cfg, tpl, world).outcome
            == Generated(ReplyText(world.first), |ReplyText(world.first)|, true, world.log == Raised)
    ensures Calls(Expected(form, cfg, tpl, world).trace) == 1
  {
    StripEmptyIff(form.keyword);
    ReplyTextStripped(world.first);
    CorrectionPolicy(form, cfg, tpl, world);
  }

  /** A corrective request that fails, or answers only whitespace, still ends
      the run normally, with an empty text and a count of 0. */
  lemma EmptyCorrectionReportsZero(form: Form, cfg: Config, tpl: Templates, world: World)
    requires !AllSpace(form.keyword) && cfg.provider == "OpenAI" && world.clientReady
    requires ReplyText(world.first) != "" && OutOfWindow(|ReplyText(world.first)|, form)
    requires ReplyText(world.second) == ""
    ensures Expected(form, cfg, tpl, world).outcome
            == Generated("", 0, form.targetMin <= 0 <= form.targetMax, world.log == Raised)
  {
    StripEmptyIff(form.keyword);
  }

  /** How logging ends changes neither the requests, nor the text, nor the
      count, nor success or warning: only the information notice. */
  lemma LoggingIsBestEffort(form: Form, cfg: Config, tpl: Templates, world: World, status: LogStatus)
    ensures var a, b := Expected(form, cfg, tpl, world), Expected(form, cfg, tpl, world.(log := status));
            && a.trace == b.trace
            && (a.outcome.Generated? <==> b.outcome.Generated?)
            && (!a.outcome.Generated? ==> a.outcome == b.outcome)
            && (a.outcome.Generated? ==>
                  a.outcome.text == b.outcome.text && a.outcome.chars == b.outcome.chars
                  && a.outcome.inRange == b.outcome.inRange
                  && b.outcome.logNotice == (status == Raised))
  {
  }
}
