/** The script executor `Osascript`: how the outcome of one run is decided from the
    session, the compiled-script shortcut, the exit status and the two stream pumps, and
    how a pump drains one output stream. Spawning the process, feeding it the script and
    joining the pump threads are outside the model; their results are parameters. */
module Osascript {
  import opened JavaLang

  /** An `IOException`; `text` is what its `toString()` returns. */
  datatype IOException = IOException(text: string)

  /** What `executeImpl` throws. An unknown error is a `ScriptFailure` whose message is
      `UnknownError`. */
  datatype Failure =
    | IOFailure(cause: IOException)
    | BadScriptingAddition(message: string)
    | ScriptFailure(message: string, script: string)

  datatype Outcome = Returned(value: string) | Thrown(failure: Failure)

  /** The part of a session the executor consults. */
  datatype Session = Session(compile: bool)

  /** A pump's state once it has been joined: its value and the failure it recorded. */
  datatype PumpResult = PumpResult(value: string, ioException: Option<IOException>)

  /** The exit status of a run without errors. */
  const NoErrors: int := 0

  /** The message of a failed run that wrote nothing to standard error. */
  const UnknownError: string := "Unknown Error"

  /** The decision after both pumps are joined: a pump failure (standard error's first)
      wins over the exit status; a non-zero exit is classified by the standard-error
      text; otherwise the run returns standard output. `isBadScriptingAdditionMessage`
      is the external heuristic match on error text. */
  function Classify(script: string, exit: Int32, stdout: PumpResult, stderr: PumpResult,
                    isBadScriptingAdditionMessage: string -> bool): (r: Outcome)
    ensures r.Returned? <==> stderr.ioException.None? && stdout.ioException.None? && exit == NoErrors
    ensures r.Returned? ==> r.value == stdout.value
    ensures stderr.ioException.Some? ==> r == Thrown(IOFailure(stderr.ioException.value))
    ensures r.Thrown? && r.failure.IOFailure? ==>
              Some(r.failure.cause) == if stderr.ioException.Some? then stderr.ioException else stdout.ioException
    ensures r.Thrown? && r.failure.IOFailure? <==>
              stderr.ioException.Some? || stdout.ioException.Some?
    ensures r.Thrown? && r.failure.BadScriptingAddition? <==>
              && stderr.ioException.None? && stdout.ioException.None? && exit != NoErrors
              && stderr.value != "" && isBadScriptingAdditionMessage(stderr.value)
    ensures r.Thrown? && r.failure.BadScriptingAddition? ==> r.failure.message == stderr.value
    ensures r.Thrown? && r.failure.ScriptFailure? ==>
              && r.failure.script == script
              && exit != NoErrors
              && (if stderr.value == "" then r.failure.message == UnknownError
                  else r.failure.message == stderr.value && !isBadScriptingAdditionMessage(stderr.value))
  {
    if stderr.ioException.Some? then Thrown(IOFailure(stderr.ioException.value))
    else if stdout.ioException.Some? then Thrown(IOFailure(stdout.ioException.value))
    else if exit != NoErrors then
      if |stderr.value| > 0 then
        if isBadScriptingAdditionMessage(stderr.value) then Thrown(BadScriptingAddition(stderr.value))
        else Thrown(ScriptFailure(stderr.value, script))
      else Thrown(ScriptFailure(UnknownError, script))
    else Returned(stdout.value)
  }

  /** `executeImpl`: a session in compile mode whose script compiles returns what the
      compiled script yields (`compiledResult`), without a subprocess; otherwise the
      subprocess run is classified. */
  function ExecuteImpl(session: Option<Session>, compiledResult: Option<string>, script: string,
                       exit: Int32, stdout: PumpResult, stderr: PumpResult,
                       isBadScriptingAdditionMessage: string -> bool): (r: Outcome)
    ensures session.Some? && session.value.compile && compiledResult.Some? ==>
              r == Returned(compiledResult.value)
    ensures !(session.Some? && session.value.compile && compiledResult.Some?) ==>
              r == Classify(script, exit, stdout, stderr, isBadScriptingAdditionMessage)
  {
    if session.Some? && session.value.compile && compiledResult.Some? then Returned(compiledResult.value)
    else Classify(script, exit, stdout, stderr, isBadScriptingAdditionMessage)
  }

  /** A script failure keeps the script text it failed on. */
  lemma ScriptFailureCarriesScript(script: string, exit: Int32, stdout: PumpResult, stderr: PumpResult,
                                   isBad: string -> bool)
    requires stderr.ioException.None? && stdout.ioException.None? && exit != NoErrors
    requires stderr.value == "" || !isBad(stderr.value)
    ensures Classify(script, exit, stdout, stderr, isBad)
            == Thrown(ScriptFailure(if stderr.value == "" then UnknownError else stderr.value, script))
  {
  }

  /** All the chunks of a stream, in order. */
  function Concat(chunks: seq<string>): string
  {
    if chunks == [] then "" else chunks[0] + Concat(chunks[1..])
  }

  datatype ReadResult = Chars(chunk: string) | EndOfStream | ReadFailed(e: IOException)

  /** A character stream: it delivers `pending` chunk by chunk and then reports the end
      of the stream, or `failure` when one is set. */
  class Reader {
    var pending: seq<string>
    const failure: Option<IOException>
    var closed: bool

    constructor (chunks: seq<string>, failure: Option<IOException>)
      ensures pending == chunks && this.failure == failure && !closed
    {
      pending := chunks;
      this.failure := failure;
      closed := false;
    }

    /** `read(cbuf)`: the next chunk, or -1 at the end, or an exception. */
    method Read() returns (r: ReadResult)
      modifies this
      ensures closed == old(closed)
      ensures old(pending) != [] ==> r == Chars(old(pending)[0]) && pending == old(pending)[1..]
      ensures old(pending) == [] ==>
                pending == [] && r == if failure.Some? then ReadFailed(failure.value) else EndOfStream
    {
      if pending != [] {
        r := Chars(pending[0]);
        pending := pending[1..];
      } else if failure.Some? {
        r := ReadFailed(failure.value);
      } else {
        r := EndOfStream;
      }
    }

    method Close()
      modifies this
      ensures closed && pending == old(pending)
    {
      closed := true;
    }
  }

  /** `ReaderPump`: drains one stream on its own thread and keeps the result. */
  class ReaderPump {
    const source: Reader
    var value: Option<string>
    var ioException: Option<IOException>

    constructor (source: Reader)
      ensures this.source == source && value == None && ioException == None
    {
      this.source := source;
      value := None;
      ioException := None;
    }

    function GetValue(): (v: Option<string>)
      reads this
      ensures v == value
    {
      value
    }

    function GetIOException(): (e: Option<IOException>)
      reads this
      ensures e == ioException
    {
      ioException
    }

    /** `run`: at the end of the stream the value is everything read, in order, trimmed;
        on a read failure the value is the exception's text, which replaces what was
        read, and the exception is recorded. The stream is closed either way. */
    method Run()
      modifies this, source
      ensures source.closed && source.pending == []
      ensures source.failure.None? ==>
                value == Some(Trim(Concat(old(source.pending)))) && ioException == old(ioException)
      ensures source.failure.Some? ==>
                value == Some(source.failure.value.text) && ioException == source.failure
    {
      ghost var all := source.pending;
      var sb := "";
      var r := source.Read();
      while r.Chars?
        invariant r.Chars? ==> Concat(all) == sb + (r.chunk + Concat(source.pending))
        invariant !r.Chars? ==>
                    && source.pending == [] && sb == Concat(all)
                    && r == if source.failure.Some? then ReadFailed(source.failure.value) else EndOfStream
        invariant ioException == old(ioException)
        decreases |source.pending| + (if r.Chars? then 1 else 0)
      {
        sb := sb + r.chunk;
        r := source.Read();
      }
      if r.ReadFailed? {
        value := Some(r.e.text);
        ioException := Some(r.e);
      } else {
        value := Some(Trim(sb));
      }
      source.Close();
    }
  }

  /** A stream that reads `chunks` and ends normally leaves the trimmed concatenation. */
  method PumpStream(chunks: seq<string>) returns (value: Option<string>, ioException: Option<IOException>)
    ensures value == Some(Trim(Concat(chunks))) && ioException == None
  {
    var reader := new Reader(chunks, None);
    var pump := new ReaderPump(reader);
    pump.Run();
    value, ioException := pump.GetValue(), pump.GetIOException();
  }
}
