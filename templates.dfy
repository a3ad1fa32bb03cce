/** The operation templates of the Bash path checks
    (damage_control.py:83-133): each is a regex with one `{path}` slot and
    the name of the operation it recognises. */
module Templates {
  import opened Strings

  datatype OpTemplate = OpTemplate(pattern: string, operation: string)

  /** The placeholder every template ends with. */
  const PathSlot: string := "{path}"

  /** A template: the regex before the slot, then the slot. */
  function Slotted(prefix: string, operation: string): OpTemplate
  {
    OpTemplate(prefix + PathSlot, operation)
  }

  const WritePatterns: seq<OpTemplate> := [
    Slotted(">\\s*", "write"),
    Slotted("\\btee\\s+(?!.*-a).*", "write")
  ]

  const AppendPatterns: seq<OpTemplate> := [
    Slotted(">>\\s*", "append"),
    Slotted("\\btee\\s+-a\\s+.*", "append"),
    Slotted("\\btee\\s+.*-a.*", "append")
  ]

  const EditPatterns: seq<OpTemplate> := [
    Slotted("\\bsed\\s+-i.*", "edit"),
    Slotted("\\bperl\\s+-[^\\s]*i.*", "edit"),
    Slotted("\\bawk\\s+-i\\s+inplace.*", "edit")
  ]

  const MoveCopyPatterns: seq<OpTemplate> := [
    Slotted("\\bmv\\s+.*\\s+", "move"),
    Slotted("\\bcp\\s+.*\\s+", "copy")
  ]

  const DeletePatterns: seq<OpTemplate> := [
    Slotted("\\brm\\s+.*", "delete"),
    Slotted("\\bunlink\\s+.*", "delete"),
    Slotted("\\brmdir\\s+.*", "delete"),
    Slotted("\\bshred\\s+.*", "delete")
  ]

  const PermissionPatterns: seq<OpTemplate> := [
    Slotted("\\bchmod\\s+.*", "chmod"),
    Slotted("\\bchown\\s+.*", "chown"),
    Slotted("\\bchgrp\\s+.*", "chgrp")
  ]

  const TruncatePatterns: seq<OpTemplate> := [
    Slotted("\\btruncate\\s+.*", "truncate"),
    Slotted(":\\s*>\\s*", "truncate")
  ]

  /** Every mutating operation: what a read-only path forbids. */
  const ReadOnlyBlocked: seq<OpTemplate> :=
    WritePatterns + AppendPatterns + EditPatterns + MoveCopyPatterns
    + DeletePatterns + PermissionPatterns + TruncatePatterns

  /** Deletion only: what a no-delete path forbids. */
  const NoDeleteBlocked: seq<OpTemplate> := DeletePatterns

  /** The part of a template before its `{path}` slot. */
  function CommandPrefix(t: OpTemplate): string
  {
    if |t.pattern| >= |PathSlot| then t.pattern[..|t.pattern| - |PathSlot|] else t.pattern
  }

  /** A template whose only `{` is the `{path}` slot at its very end, after a
      non-empty command prefix. */
  predicate SlotAtEnd(t: OpTemplate)
  {
    && |t.pattern| > |PathSlot|
    && t.pattern[|t.pattern| - |PathSlot|..] == PathSlot
    && '{' !in CommandPrefix(t)
  }

  /** Filling the slot of such a template appends the filler to its command prefix. */
  lemma FillSlot(t: OpTemplate, filler: string)
    requires SlotAtEnd(t)
    ensures Replace(t.pattern, PathSlot, filler) == CommandPrefix(t) + filler
    ensures CommandPrefix(t) != []
  {
    assert t.pattern == CommandPrefix(t) + PathSlot;
    ReplaceSuffix(CommandPrefix(t), PathSlot, filler);
  }

  /** Every template in the tables has its slot at the end. */
  lemma {:induction false} TablesHaveSlotAtEnd()
    ensures forall t :: t in ReadOnlyBlocked ==> SlotAtEnd(t)
  {
    forall t | t in WritePatterns ensures SlotAtEnd(t) { SlotsOfWrite(t); }
    forall t | t in AppendPatterns ensures SlotAtEnd(t) { SlotsOfAppend(t); }
    forall t | t in EditPatterns ensures SlotAtEnd(t) { SlotsOfEdit(t); }
    forall t | t in MoveCopyPatterns ensures SlotAtEnd(t) { SlotsOfMoveCopy(t); }
    forall t | t in DeletePatterns ensures SlotAtEnd(t) { SlotsOfDelete(t); }
    forall t | t in PermissionPatterns ensures SlotAtEnd(t) { SlotsOfPermission(t); }
    forall t | t in TruncatePatterns ensures SlotAtEnd(t) { SlotsOfTruncate(t); }
  }

  /** A template made of a non-empty prefix without `{` and the slot has
      its slot at the end. */
  lemma SlotAfterPrefix(t: OpTemplate)
    requires exists prefix, op :: prefix != [] && '{' !in prefix && t == Slotted(prefix, op)
    ensures SlotAtEnd(t)
  {
    var prefix, op :| prefix != [] && '{' !in prefix && t == Slotted(prefix, op);
    assert t.pattern[..|t.pattern| - |PathSlot|] == prefix;
    assert t.pattern[|t.pattern| - |PathSlot|..] == PathSlot;
  }

  lemma SlotsOfWrite(t: OpTemplate)
    requires t in WritePatterns
    ensures SlotAtEnd(t)
  {
    SlotAfterPrefix(WritePatterns[0]);
    SlotAfterPrefix(WritePatterns[1]);
  }

  lemma SlotsOfAppend(t: OpTemplate)
    requires t in AppendPatterns
    ensures SlotAtEnd(t)
  {
    SlotAfterPrefix(AppendPatterns[0]);
    SlotAfterPrefix(AppendPatterns[1]);
    SlotAfterPrefix(AppendPatterns[2]);
  }

  lemma SlotsOfEdit(t: OpTemplate)
    requires t in EditPatterns
    ensures SlotAtEnd(t)
  {
    SlotAfterPrefix(EditPatterns[0]);
    SlotAfterPrefix(EditPatterns[1]);
    SlotAfterPrefix(EditPatterns[2]);
  }

  lemma SlotsOfMoveCopy(t: OpTemplate)
    requires t in MoveCopyPatterns
    ensures SlotAtEnd(t)
  {
    SlotAfterPrefix(MoveCopyPatterns[0]);
    SlotAfterPrefix(MoveCopyPatterns[1]);
  }

  lemma SlotsOfDelete(t: OpTemplate)
    requires t in DeletePatterns
    ensures SlotAtEnd(t)
  {
    SlotAfterPrefix(DeletePatterns[0]);
    SlotAfterPrefix(DeletePatterns[1]);
    SlotAfterPrefix(DeletePatterns[2]);
    SlotAfterPrefix(DeletePatterns[3]);
  }

  lemma SlotsOfPermission(t: OpTemplate)
    requires t in PermissionPatterns
    ensures SlotAtEnd(t)
  {
    SlotAfterPrefix(PermissionPatterns[0]);
    SlotAfterPrefix(PermissionPatterns[1]);
    SlotAfterPrefix(PermissionPatterns[2]);
  }

  lemma SlotsOfTruncate(t: OpTemplate)
    requires t in TruncatePatterns
    ensures SlotAtEnd(t)
  {
    SlotAfterPrefix(TruncatePatterns[0]);
    SlotAfterPrefix(TruncatePatterns[1]);
  }

  /** The no-delete set is the delete group, which sits inside the
      read-only set: everything a no-delete path forbids, a read-only path
      forbids too. */
  lemma NoDeleteWithinReadOnly()
    ensures |ReadOnlyBlocked| == 19
    ensures ReadOnlyBlocked[10..14] == NoDeleteBlocked
    ensures forall t :: t in NoDeleteBlocked ==> t in ReadOnlyBlocked
  {
  }
}
