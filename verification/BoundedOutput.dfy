/** Output on its way from a child process to the stored preview: bounded by the agent, then by the server. */
module BoundedOutput {
  import opened Records
  import opened Utf8
  import Engine
  import EngineRuns
  import EngineTheorems

  const PIPE_BUFFER: nat := 8192

  /** Everything the child wrote, as the reads of the pipe deliver it. */
  function Stream(chunks: seq<seq<byte>>): seq<byte> {
    if chunks == [] then [] else Stream(chunks[..|chunks| - 1]) + chunks[|chunks| - 1]
  }

  /**
   * `read_pipe_bounded`: drains the pipe to its end but keeps only the first
   * `limit` bytes, and says whether there were more. However the pipe splits
   * the stream into reads, the answer is the same.
   */
  method ReadPipeBounded(chunks: seq<seq<byte>>, limit: nat) returns (output: seq<byte>, truncated: bool)
    requires forall i :: 0 <= i < |chunks| ==> 0 < |chunks[i]| <= PIPE_BUFFER
    ensures output == Stream(chunks)[..Min(limit, |Stream(chunks)|)]
    ensures truncated <==> |Stream(chunks)| > limit
  {
    output, truncated := [], false;
    var i := 0;
    while i < |chunks|
      invariant i <= |chunks| && output == Stream(chunks[..i])[..Min(limit, |Stream(chunks[..i])|)]
      invariant truncated <==> |Stream(chunks[..i])| > limit
    {
      var buffer := chunks[i];
      assert chunks[..i + 1][..i] == chunks[..i];
      assert Stream(chunks[..i + 1]) == Stream(chunks[..i]) + buffer;
      if |output| < limit {
        var keep := Min(limit - |output|, |buffer|);
        output := output + buffer[..keep];
        if keep < |buffer| { truncated := true; }
      } else {
        truncated := true;
      }
      i := i + 1;
    }
    assert chunks[..i] == chunks;
  }

  /** What an agent reports of a child that ended: its redacted output, cut to the task's limit. */
  function Reported(redacted: string, t: Task): string {
    Truncate(redacted, t.outputLimit)
  }

  /** Cut by the agent and cut again by the server, the preview is the redacted text cut once. */
  lemma PreviewIsOneCut(t: Task, b: Engine.ResultBody, digest: string, redacted: string)
    requires b.output == Reported(redacted, t)
    ensures var done := Engine.Completed(t, b, digest);
      done.output == Truncate(redacted, Min(t.outputLimit, MAX_PERSISTED_OUTPUT_BYTES)) &&
      (done.outputTruncated <==> done.output != b.output)
  {
    TruncateTwice(redacted, t.outputLimit, Min(t.outputLimit, MAX_PERSISTED_OUTPUT_BYTES));
    TruncateKeepsWhatFits(b.output, Min(t.outputLimit, MAX_PERSISTED_OUTPUT_BYTES));
  }

  /**
   * Once a result is accepted in a run, the task keeps forever a preview that
   * is the agent's redacted text cut at the smaller of its own limit and 4096
   * bytes, marked truncated exactly when the preview is not what was sent.
   */
  lemma AcceptedPreview(
    cfg: Engine.Config, trace: EngineRuns.Trace, h: EngineRuns.History, j: nat, m: nat, k: nat, redacted: string)
    requires EngineRuns.Follows(cfg, trace, h) && EngineTheorems.AcceptsAt(h, j, k) && j < m
    requires k < |h.state(j).mem.tasks| && trace.at(j).request.AgentResult?
    requires trace.at(j).request.result.output == Reported(redacted, h.state(j).mem.tasks[k])
    ensures k < |h.state(m).mem.tasks|
    ensures var t := h.state(m).mem.tasks[k];
      t.output == Truncate(redacted, Min(t.outputLimit, MAX_PERSISTED_OUTPUT_BYTES)) &&
      (t.outputTruncated <==> t.output != trace.at(j).request.result.output)
  {
    EngineTheorems.AcceptanceEnds(cfg, trace, h, j, k);
    EngineTheorems.NothingGoesBack(cfg, trace, h, j + 1, m);
    var before, b := h.state(j).mem.tasks[k], trace.at(j).request.result;
    var after := h.state(j + 1).mem.tasks[k];
    assert EngineRuns.Moves(cfg, trace, h, j);
    assert after == Engine.Completed(before, b, after.outputSha256);
    PreviewIsOneCut(before, b, after.outputSha256, redacted);
  }
}
