/**
 * The parts of the chat server's model-backend client that carry logic
 * (server.py, `OllamaClient.generate_response` and the prompt built in
 * `index`): the fold over the streamed reply, the error strings that replace
 * exceptions, and the prompt text. The HTTP exchange itself is a parameter:
 * the reply arrives already split into decoded lines.
 */
module Inference {
  import opened Wrappers
  import opened Text

  /**
   * One line of the streamed reply: an empty line, a line that is not valid
   * JSON, or a decoded JSON object with its optional `response` text and its
   * `done` flag (absent reads as false).
   */
  datatype StreamLine = Blank | Undecodable | Record(response: Option<string>, done: bool)

  /** What the backend did with the request. */
  datatype Reply = Response(status: int, lines: seq<StreamLine>) | TimedOut | RequestFailed

  /**
   * The text the stream loop accumulates: blank and undecodable lines add
   * nothing, every record adds its `response`, and nothing after the first
   * record marked done is read.
   */
  function Collected(lines: seq<StreamLine>): string
    decreases |lines|
  {
    if lines == [] then ""
    else match lines[0]
      case Blank => Collected(lines[1..])
      case Undecodable => Collected(lines[1..])
      case Record(response, done) => response.GetOr("") + (if done then "" else Collected(lines[1..]))
  }

  predicate IsDone(line: StreamLine) {
    line.Record? && line.done
  }

  /** Whatever follows a record marked done is never read. */
  lemma {:induction false} CollectedStopsAtDone(lines: seq<StreamLine>, k: nat)
    requires k < |lines| && IsDone(lines[k])
    ensures Collected(lines) == Collected(lines[..k + 1])
    decreases k
  {
    if k > 0 {
      CollectedStopsAtDone(lines[1..], k - 1);
      assert lines[1..][..k] == lines[..k + 1][1..];
    }
  }

  /** Without a done record, the text of two stretches of the stream is the text of each in turn. */
  lemma {:induction false} CollectedConcat(a: seq<StreamLine>, b: seq<StreamLine>)
    requires forall i :: 0 <= i < |a| ==> !IsDone(a[i])
    ensures Collected(a + b) == Collected(a) + Collected(b)
    decreases |a|
  {
    if a == [] {
      assert a + b == b;
    } else {
      CollectedConcat(a[1..], b);
      assert (a + b)[1..] == a[1..] + b;
      assert !IsDone(a[0]);
    }
  }

  /**
   * The stream loop of `generate_response` for a 200 reply: appends each
   * record's `response`, skips blank and undecodable lines, and stops after
   * the record marked done.
   */
  method AccumulateStream(lines: seq<StreamLine>) returns (full: string)
    ensures full == Collected(lines)
  {
    full := "";
    var i := 0;
    while i < |lines|
      invariant 0 <= i <= |lines|
      invariant full + Collected(lines[i..]) == Collected(lines)
    {
      var line := lines[i];
      ghost var before := full;
      CollectedAt(lines, i);
      if line.Record? {
        var piece := line.response.GetOr("");
        if line.response.Some? {
          full := full + line.response.value;
        } else {
          assert full + piece == full;
        }
        if line.done {
          assert before + (piece + "") == full;
          break;
        }
        AppendAssoc(before, piece, Collected(lines[i + 1..]));
      }
      i := i + 1;
    }
  }

  /** The text from position `i` on: the line at `i`, then (unless it is done) the rest. */
  lemma CollectedAt(lines: seq<StreamLine>, i: nat)
    requires i < |lines|
    ensures Collected(lines[i..]) ==
      if lines[i].Record? then lines[i].response.GetOr("") + (if lines[i].done then "" else Collected(lines[i + 1..]))
      else Collected(lines[i + 1..])
  {
    assert lines[i..][1..] == lines[i + 1..];
  }

  /** Every failure text starts with this marker. */
  const ERROR_MARK: string := "Error: "
  const TIMEOUT_TEXT: string :=
    ERROR_MARK + "Request timed out. The model is taking too long to respond. Try using a smaller model like 'llama2' or 'phi3'."
  const UNREACHABLE_TEXT: string :=
    ERROR_MARK + "Failed to connect to Ollama. Make sure Ollama is running and the model is available."

  function StatusText(status: int): string {
    ERROR_MARK + "Ollama API returned status " + IntToString(status) + ". Try using a smaller model like 'llama2' or 'phi3'."
  }

  /**
   * What `generate_response` answers: a 200 reply yields the collected,
   * stripped text; any other status, a timeout or a failed request yields an
   * `Error: ...` string in place of an exception.
   */
  function ReplyText(reply: Reply): (text: string)
    ensures !(reply.Response? && reply.status == 200) ==> StartsWith(text, ERROR_MARK)
  {
    match reply
    case Response(status, lines) => if status == 200 then Strip(Collected(lines)) else StatusText(status)
    case TimedOut => TIMEOUT_TEXT
    case RequestFailed => UNREACHABLE_TEXT
  }

  /** `generate_response`, with the stream read by the loop above. */
  method GenerateResponse(reply: Reply) returns (text: string)
    ensures text == ReplyText(reply)
  {
    match reply {
      case Response(status, lines) =>
        if status == 200 {
          var full := AccumulateStream(lines);
          text := Strip(full);
        } else {
          text := StatusText(status);
        }
      case TimedOut =>
        text := TIMEOUT_TEXT;
      case RequestFailed =>
        text := UNREACHABLE_TEXT;
    }
  }

  /** One context line, `f"{role}: {content}"`. */
  function Line(turn: (string, string)): string {
    turn.0 + ": " + turn.1
  }

  /** The context lines `role: content`, joined with newlines. */
  function Context(turns: seq<(string, string)>): string {
    if turns == [] then "" else Line(turns[0]) + Separated(turns[1..])
  }

  /** Each line preceded by a newline: what follows the first line of a join. */
  function Separated(turns: seq<(string, string)>): string
    decreases |turns|
  {
    if turns == [] then "" else "\n" + Line(turns[0]) + Separated(turns[1..])
  }

  lemma AppendAssoc<T>(p: seq<T>, q: seq<T>, r: seq<T>)
    ensures (p + q) + r == p + (q + r)
  {
  }

  /** Newline-prefixed lines of two runs concatenate. */
  lemma {:induction false} SeparatedConcat(a: seq<(string, string)>, b: seq<(string, string)>)
    ensures Separated(a + b) == Separated(a) + Separated(b)
    decreases |a|
  {
    if a == [] {
      assert a + b == b;
    } else {
      assert (a + b)[1..] == a[1..] + b;
      SeparatedConcat(a[1..], b);
      AppendAssoc("\n" + Line(a[0]), Separated(a[1..]), Separated(b));
    }
  }

  /** Joining two non-empty runs of turns puts one newline between their contexts. */
  lemma ContextConcat(a: seq<(string, string)>, b: seq<(string, string)>)
    requires a != [] && b != []
    ensures Context(a + b) == Context(a) + "\n" + Context(b)
  {
    assert (a + b)[1..] == a[1..] + b;
    SeparatedConcat(a[1..], b);
    AppendAssoc(Line(a[0]), Separated(a[1..]), Separated(b));
    assert Separated(b) == "\n" + Context(b) by {
      AppendAssoc("\n", Line(b[0]), Separated(b[1..]));
    }
    AppendAssoc(Context(a), "\n", Context(b));
  }

  /** The prompt `f"{context}\n\nUser: {user_message}\nAssistant:"`. */
  function BuildPrompt(turns: seq<(string, string)>, userMessage: string): (p: string)
    ensures var c := Context(turns);
            && |p| == |c| + |userMessage| + 19
            && p[..|c|] == c
            && p[|c|..|c| + 8] == "\n\nUser: "
            && p[|c| + 8..|c| + 8 + |userMessage|] == userMessage
            && p[|p| - 11..] == "\nAssistant:"
  {
    Context(turns) + "\n\nUser: " + userMessage + "\nAssistant:"
  }
}
