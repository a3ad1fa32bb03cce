/** The outcome of one tool call, and how `_block` reports a block
    (damage_control.py:437-447). */
module Decisions {
  import opened Strings

  /** Allow (exit 0, no output), Ask (exit 0, an "ask" decision on stdout)
      or Block (exit 2, two lines on stderr). A block carries the reason and
      the already truncated context it reports. */
  datatype Decision = Allow | Ask(reason: string) | Block(reason: string, target: string)

  /** How much of the blocked command or path `_block` shows. */
  const TargetLimit: nat := 100

  /** The context line of a block: at most 100 characters of the context,
      followed by `...` when something was cut. */
  function Truncate(context: string): (r: string)
    ensures |context| <= TargetLimit ==> r == context
    ensures |context| > TargetLimit ==> |r| == TargetLimit + 3 && StartsWith(context, r[..TargetLimit]) && r[TargetLimit..] == "..."
  {
    if |context| > TargetLimit then context[..TargetLimit] + "..." else context
  }

  /** `_block(reason, context)`, as a value instead of a process exit. */
  function BlockWith(reason: string, context: string): (d: Decision)
    ensures d.Block? && d.reason == reason && d.target == Truncate(context)
  {
    Block(reason, Truncate(context))
  }

  /** The process exit status of a decision: 2 is reserved for blocks. */
  function ExitCode(d: Decision): (code: int)
    ensures code == 2 <==> d.Block?
    ensures code == 0 <==> !d.Block?
  {
    if d.Block? then 2 else 0
  }

  /** The two stderr lines of a block: its reason after `SECURITY: `, and
      its truncated context after `Target: `. */
  function StderrLines(d: Decision): (lines: seq<string>)
    ensures d.Block? ==> lines == ["SECURITY: " + d.reason, "Target: " + d.target]
    ensures !d.Block? ==> lines == []
  {
    if d.Block? then ["SECURITY: " + d.reason, "Target: " + d.target] else []
  }

  /** Truncation is idempotent: a context line that was cut once is not cut
      again (its 103 characters are again 100 kept and `...`). */
  lemma {:induction false} TruncateIdempotent(context: string)
    ensures Truncate(Truncate(context)) == Truncate(context)
  {
    if |context| > TargetLimit {
      var r := Truncate(context);
      assert r[..TargetLimit] == context[..TargetLimit];
      assert r[..TargetLimit] + "..." == r;
    }
  }
}
