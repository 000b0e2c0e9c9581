/**
 The Hermes CLI adapter of internal/backend/hermes_cli.go around its parser: the argument vector, the
 checks on what the command delivered, and what becomes of that when the task runs in the background.
 */
module HermesAdapter {
  import opened Text
  import opened Wrappers
  import Backend
  import Decimal
  import Dispatch
  import HermesCli

  /** The configuration once its defaults are filled in. */
  datatype Config = Config(source: string, maxTurns: int, maxOutput: int, passModel: bool)

  datatype CommandResult = CommandResult(stdout: string, exitCode: int)

  /** A command that could not be run at all; `interrupted` if a context ended it. */
  datatype RunError = RunError(interrupted: bool)

  /** The length in bytes of a code point in UTF-8 (section 3 of RFC 3629). */
  function Utf8Length(c: char): nat {
    if c as int < 0x80 then 1 else if c as int < 0x800 then 2 else if c as int < 0x10000 then 3 else 4
  }

  function ByteLength(s: string): nat {
    if s == "" then 0 else Utf8Length(s[0]) + ByteLength(s[1..])
  }

  /** The length is the least one whose payload of 7, 11, 16 or 21 bits holds the code point. */
  lemma Utf8LengthIsLeast(c: char)
    ensures var room := [0x80, 0x800, 0x1_0000, 0x11_0000];
      1 <= Utf8Length(c) <= 4 && c as int < room[Utf8Length(c) - 1]
      && (Utf8Length(c) > 1 ==> room[Utf8Length(c) - 2] <= c as int)
  {
  }

  method Arguments(cfg: Config, req: Backend.Request) returns (args: seq<string>)
    ensures |args| >= 8 && args[..3] == ["chat", "-q", req.input]
    ensures args[3..8] == ["-Q", "--source", cfg.source, "--max-turns", Decimal.PrintInt(cfg.maxTurns)]
    ensures args[8..] == if cfg.passModel && !IsBlank(req.modelName) then ["-m", req.modelName] else []
  {
    args := ["chat", "-q", req.input, "-Q", "--source", cfg.source, "--max-turns", Decimal.PrintInt(cfg.maxTurns)];
    if cfg.passModel && TrimSpace(req.modelName) != "" {
      args := args + ["-m", req.modelName];
    }
  }

  function Refusal(code: string, cause: Backend.Sentinel): Dispatch.CallResult {
    Dispatch.CallResult(None, Some(Backend.Error(code, {cause})))
  }

  /** The metadata of an answer. */
  function AnswerMetadata(sessionID: string): map<string, string> {
    if sessionID == "" then map["backend" := "hermes_cli"]
    else map["backend" := "hermes_cli", "session_id" := sessionID]
  }

  /** The command delivered an answer that can be used. */
  predicate Delivered(cfg: Config, req: Backend.Request, run: Result<CommandResult, RunError>) {
    && Backend.Validate(req).None? && run.Ok? && run.value.exitCode == 0
    && ByteLength(run.value.stdout) <= cfg.maxOutput && !IsBlank(HermesCli.Answer(run.value.stdout))
  }

  /** The cause of a refusal: a bad request, an interruption, or anything else that went wrong. */
  function Cause(req: Backend.Request, run: Result<CommandResult, RunError>): Backend.Sentinel {
    if Backend.Validate(req).Some? then Backend.InvalidRequest
    else if run.Err? && run.error.interrupted then Backend.Temporary
    else Backend.InvocationFailed
  }

  /** A success carries the parsed answer and comes exactly of a usable delivery; a refusal carries its one cause. */
  ghost predicate Answers(cfg: Config, req: Backend.Request, run: Result<CommandResult, RunError>,
                          r: Dispatch.CallResult) {
    if Delivered(cfg, req, run) then
      && r.err.None?
      && r.resp == Some(Backend.Response("", HermesCli.Answer(run.value.stdout), Backend.Completed, "", None,
                                         Some(AnswerMetadata(HermesCli.Session(run.value.stdout)))))
    else r.resp.None? && r.err.Some? && r.err.value.wraps == {Cause(req, run)}
  }

  /** Invoke, given what running the command came to. */
  method Invoke(cfg: Config, req: Backend.Request, run: Result<CommandResult, RunError>)
    returns (r: Dispatch.CallResult)
    ensures Answers(cfg, req, run, r)
  {
    if Backend.Validate(req).Some? {
      return Refusal("invalid_request", Backend.InvalidRequest);
    }
    if run.Err? {
      if run.error.interrupted {
        return Refusal("timeout", Backend.Temporary);
      }
      return Refusal("command_error", Backend.InvocationFailed);
    }
    var result := run.value;
    if result.exitCode != 0 {
      return Refusal("non_zero_exit", Backend.InvocationFailed);
    }
    if ByteLength(result.stdout) > cfg.maxOutput {
      return Refusal("output_too_large", Backend.InvocationFailed);
    }
    var answer, sessionID := HermesCli.ParseHermesCLIStdout(result.stdout);
    if TrimSpace(answer) == "" {
      return Refusal("empty_output", Backend.InvocationFailed);
    }
    var metadata := map["backend" := "hermes_cli"];
    if sessionID != "" {
      metadata := metadata["session_id" := sessionID];
    }
    r := Dispatch.CallResult(
      Some(Backend.Response("", answer, Backend.Completed, "", None, Some(metadata))), None);
  }

  /** What the adapter answers, case by case in the order of its checks. */
  lemma AnswersCaseByCase(cfg: Config, req: Backend.Request, run: Result<CommandResult, RunError>,
                          r: Dispatch.CallResult)
    requires Answers(cfg, req, run, r)
    ensures Backend.Validate(req).Some? ==> r.err.Some? && r.err.value.wraps == {Backend.InvalidRequest}
    ensures Backend.Validate(req).None? && run.Err? ==>
              r.err.Some?
              && r.err.value.wraps == {if run.error.interrupted then Backend.Temporary else Backend.InvocationFailed}
    ensures Backend.Validate(req).None? && run.Ok? ==>
              var stdout := run.value.stdout;
              if run.value.exitCode != 0 || ByteLength(stdout) > cfg.maxOutput || IsBlank(HermesCli.Answer(stdout)) then
                r.resp.None? && r.err.Some? && r.err.value.wraps == {Backend.InvocationFailed}
              else
                && r.err.None? && r.resp.Some? && r.resp.value.output == HermesCli.Answer(stdout)
                && r.resp.value.status == Backend.Completed && r.resp.value.metadata.Some?
                && var metadata := r.resp.value.metadata.value;
                   && "backend" in metadata && metadata["backend"] == "hermes_cli"
                   && ("session_id" in metadata <==> HermesCli.Session(stdout) != "")
                   && ("session_id" in metadata ==> metadata["session_id"] == HermesCli.Session(stdout))
  {
  }

  /** A call of the adapter is over when it returns: it never answers `accepted`. */
  lemma NeverAccepts(cfg: Config, req: Backend.Request, run: Result<CommandResult, RunError>, r: Dispatch.CallResult)
    requires Answers(cfg, req, run, r)
    ensures r.resp.Some? ==> r.resp.value.status != Backend.Accepted
  {
  }

  /** What is stored as the message of a refusal. */
  function Message(cause: Backend.Sentinel): string {
    if cause == Backend.InvalidRequest then "backend request is invalid"
    else if cause == Backend.Temporary then "backend temporarily unavailable"
    else "backend invocation failed"
  }

  lemma RefusalIsStored(e: Backend.Error, cause: Backend.Sentinel)
    requires e.wraps == {cause} && cause in {Backend.InvalidRequest, Backend.Temporary, Backend.InvocationFailed}
    ensures Dispatch.SafeTaskError(e).message == Message(cause) && Message(cause) != ""
  {
  }
}
