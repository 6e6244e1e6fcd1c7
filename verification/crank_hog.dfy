/**
 * The `crank_hog` instruction of the crank-hog-v1 program: a guard that lets a
 * crank through only when it is the last instruction of its transaction and
 * every instruction before it targets the ComputeBudget program.
 */
module CrankHogV1 {
  import opened Solana

  /** The ComputeBudget program, the only program allowed before the crank. */
  const ComputeBudgetId: Pubkey := Pubkey("ComputeBudget111111111111111111111111111111")

  /** The program's own error codes (`crate::error::ErrorCode`); the guard uses only `Default`. */
  datatype ErrorCode = Default

  /** The error an instruction handler returns: one of the program's codes, or a runtime error passed on by `?`. */
  datatype Error = Custom(code: ErrorCode) | Runtime(cause: ProgramError)

  /** The `msg!` lines the guard writes to the transaction log. */
  datatype LogLine = MustBeLast | NotComputeBudget(programId: Pubkey)

  // ---------------------------------------------------------------------------
  // Specification
  // ---------------------------------------------------------------------------

  /** Position `j` holds an instruction, and that instruction targets ComputeBudget. */
  predicate Benign(ixs: seq<Instruction>, j: nat)
  {
    j < |ixs| && ixs[j].programId == ComputeBudgetId
  }

  /** No instruction sits right after the crank. */
  predicate NoInstructionAfter(sysvar: InstructionsSysvar)
  {
    |sysvar.instructions| <= sysvar.currentIndex + 1
  }

  /**
   * The batch the guard lets through: the top-level instruction at the current
   * index is last and every top-level instruction before it is ComputeBudget.
   * Nothing is required of the instruction at the current index itself.
   */
  predicate Accepts(sysvar: InstructionsSysvar)
  {
    && NoInstructionAfter(sysvar)
    && forall j :: 0 <= j < sysvar.currentIndex ==> Benign(sysvar.instructions, j)
  }

  /**
   * The highest position below `n` that is not benign, if any: the position a
   * scan going down from `n - 1` stops at.
   */
  function HighestOffender(ixs: seq<Instruction>, n: nat): (h: Option<nat>)
    ensures h.None? <==> forall k :: 0 <= k < n ==> Benign(ixs, k)
    ensures h.Some? ==> h.value < n && !Benign(ixs, h.value)
    ensures h.Some? ==> forall k :: h.value < k < n ==> Benign(ixs, k)
    decreases n
  {
    if n == 0 then None
    else if !Benign(ixs, n - 1) then Some(n - 1)
    else HighestOffender(ixs, n - 1)
  }

  /**
   * What the guard returns and logs, stated without its loop: a rejection for
   * an instruction after the crank; otherwise a verdict decided by the highest
   * offending position below the crank, which either targets another program
   * or (on a sysvar the runtime would never hand over) lies past the end.
   */
  function Verdict(sysvar: InstructionsSysvar): (verdict: (Result<(), Error>, seq<LogLine>))
  {
    var ixs := sysvar.instructions;
    if !NoInstructionAfter(sysvar) then
      (Err(Custom(Default)), [MustBeLast])
    else
      match HighestOffender(ixs, sysvar.currentIndex)
      case None => (Ok(()), [])
      case Some(j) =>
        if j < |ixs| then (Err(Custom(Default)), [NotComputeBudget(ixs[j].programId)])
        else (Err(Runtime(InvalidArgument)), [])
  }

  // ---------------------------------------------------------------------------
  // The instruction handler
  // ---------------------------------------------------------------------------

  /**
   * `crank_hog`: reject the call unless the crank is the last instruction and
   * every earlier instruction, scanned from just below the crank down to 0,
   * targets ComputeBudget. It takes the sysvar by value and changes nothing.
   */
  method CrankHog(sysvar: InstructionsSysvar) returns (r: Result<(), Error>, logs: seq<LogLine>)
    ensures (r, logs) == Verdict(sysvar)
    ensures r.Ok? <==> Accepts(sysvar)
    ensures ValidSysvar(sysvar) ==> r == Ok(()) || r == Err(Custom(Default))
  {
    VerdictAcceptsExactly(sysvar);
    if ValidSysvar(sysvar) {
      OnlyDefaultOnValidSysvar(sysvar);
    }

    var currentIndex: nat := LoadCurrentIndex(sysvar);

    if LoadInstructionAt(currentIndex + 1, sysvar).Ok? {
      return Err(Custom(Default)), [MustBeLast];
    }

    while true
      invariant currentIndex <= sysvar.currentIndex
      invariant forall k :: currentIndex <= k < sysvar.currentIndex ==> Benign(sysvar.instructions, k)
      decreases currentIndex
    {
      if currentIndex == 0 {
        break;
      }

      currentIndex := currentIndex - 1;

      var loaded := LoadInstructionAt(currentIndex, sysvar);
      if loaded.Err? {
        HighestOffenderFound(sysvar.instructions, sysvar.currentIndex, currentIndex);
        return Err(Runtime(loaded.error)), [];
      }
      var ix := loaded.value;

      if ix.programId != ComputeBudgetId {
        HighestOffenderFound(sysvar.instructions, sysvar.currentIndex, currentIndex);
        return Err(Custom(Default)), [NotComputeBudget(ix.programId)];
      }
    }

    return Ok(()), [];
  }

  // ---------------------------------------------------------------------------
  // Properties
  // ---------------------------------------------------------------------------

  /** A non-benign position with only benign positions above it (below `n`) is the highest offender. */
  lemma HighestOffenderFound(ixs: seq<Instruction>, n: nat, j: nat)
    requires j < n && !Benign(ixs, j)
    requires forall k :: j < k < n ==> Benign(ixs, k)
    ensures HighestOffender(ixs, n) == Some(j)
  {
  }

  /** An instruction after the crank is rejected with `Default`, whatever comes before it. */
  lemma LastPositionEnforced(sysvar: InstructionsSysvar)
    requires sysvar.currentIndex + 1 < |sysvar.instructions|
    ensures Verdict(sysvar) == (Err(Custom(Default)), [MustBeLast])
  {
  }

  /** A crank at index 0 with nothing after it is accepted: the scan looks at nothing. */
  lemma LoneCrankAccepted(sysvar: InstructionsSysvar)
    requires sysvar.currentIndex == 0 && |sysvar.instructions| == 1
    ensures Verdict(sysvar) == (Ok(()), [])
  {
  }

  /** Any instruction below the crank that targets another program gets the batch rejected. */
  lemma ForeignInstructionRejected(sysvar: InstructionsSysvar, j: nat)
    requires ValidSysvar(sysvar)
    requires j < sysvar.currentIndex
    requires sysvar.instructions[j].programId != ComputeBudgetId
    ensures Verdict(sysvar).0 == Err(Custom(Default))
  {
    assert !Benign(sysvar.instructions, j);
  }

  /** The verdict is `Ok` exactly for the batches the guard is meant to let through. */
  lemma VerdictAcceptsExactly(sysvar: InstructionsSysvar)
    ensures Verdict(sysvar).0.Ok? <==> Accepts(sysvar)
  {
  }

  /**
   * The scan stops at the highest foreign instruction below the crank, and the
   * log names that instruction's program.
   */
  lemma RejectionNamesHighestForeign(sysvar: InstructionsSysvar, j: nat)
    requires ValidSysvar(sysvar) && NoInstructionAfter(sysvar)
    requires j < sysvar.currentIndex
    requires sysvar.instructions[j].programId != ComputeBudgetId
    requires forall k :: j < k < sysvar.currentIndex ==> sysvar.instructions[k].programId == ComputeBudgetId
    ensures Verdict(sysvar) == (Err(Custom(Default)), [NotComputeBudget(sysvar.instructions[j].programId)])
  {
    HighestOffenderFound(sysvar.instructions, sysvar.currentIndex, j);
  }

  /** On a sysvar the runtime hands over, both ways of rejecting give the same error, `Default`. */
  lemma OnlyDefaultOnValidSysvar(sysvar: InstructionsSysvar)
    requires ValidSysvar(sysvar)
    ensures Verdict(sysvar).0 == Ok(()) || Verdict(sysvar).0 == Err(Custom(Default))
  {
  }

  /** The highest offender below `n` depends only on the programs the instructions below `n` target. */
  lemma {:induction false} HighestOffenderByProgramIds(a: seq<Instruction>, b: seq<Instruction>, n: nat)
    requires |a| == |b|
    requires forall k :: 0 <= k < |a| && k < n ==> a[k].programId == b[k].programId
    ensures HighestOffender(a, n) == HighestOffender(b, n)
    decreases n
  {
    if n > 0 {
      assert Benign(a, n - 1) == Benign(b, n - 1);
      HighestOffenderByProgramIds(a, b, n - 1);
    }
  }

  /**
   * The guard looks only at where the crank is, how many instructions there
   * are and which program each targets: accounts and data play no part.
   */
  lemma VerdictIgnoresAccountsAndData(s1: InstructionsSysvar, s2: InstructionsSysvar)
    requires s1.currentIndex == s2.currentIndex
    requires |s1.instructions| == |s2.instructions|
    requires forall k :: 0 <= k < |s1.instructions| ==> s1.instructions[k].programId == s2.instructions[k].programId
    ensures Verdict(s1) == Verdict(s2)
  {
    HighestOffenderByProgramIds(s1.instructions, s2.instructions, s1.currentIndex);
  }

  /**
   * The guard never looks at the instruction at the current index: replacing
   * it with any instruction, for any program, leaves the verdict unchanged.
   */
  lemma CrankSlotIgnored(sysvar: InstructionsSysvar, y: Instruction)
    requires sysvar.currentIndex < |sysvar.instructions|
    ensures Verdict(InstructionsSysvar(sysvar.instructions[sysvar.currentIndex := y], sysvar.currentIndex)) == Verdict(sysvar)
  {
    var replaced := sysvar.instructions[sysvar.currentIndex := y];
    HighestOffenderByProgramIds(replaced, sysvar.instructions, sysvar.currentIndex);
  }

  /** The sysvar with instruction `x` inserted at position `k`. */
  function InsertAt(sysvar: InstructionsSysvar, k: nat, x: Instruction, currentIndex: nat): (inserted: InstructionsSysvar)
    requires k <= |sysvar.instructions|
  {
    InstructionsSysvar(sysvar.instructions[..k] + [x] + sysvar.instructions[k..], currentIndex)
  }

  /**
   * Smuggling any other program's instruction in before the crank, which
   * moves the crank one place up, gets the batch rejected.
   */
  lemma SmuggledBeforeRejected(sysvar: InstructionsSysvar, k: nat, x: Instruction)
    requires ValidSysvar(sysvar)
    requires k <= sysvar.currentIndex
    requires x.programId != ComputeBudgetId
    ensures !Accepts(InsertAt(sysvar, k, x, sysvar.currentIndex + 1))
  {
    var smuggled := InsertAt(sysvar, k, x, sysvar.currentIndex + 1);
    assert smuggled.instructions[k] == x;
    assert !Benign(smuggled.instructions, k);
  }

  /** Smuggling any instruction in after the crank gets the batch rejected. */
  lemma SmuggledAfterRejected(sysvar: InstructionsSysvar, k: nat, x: Instruction)
    requires ValidSysvar(sysvar)
    requires sysvar.currentIndex < k <= |sysvar.instructions|
    ensures !Accepts(InsertAt(sysvar, k, x, sysvar.currentIndex))
  {
  }

  /** Benign, benign, crank (at index 2) is accepted. */
  lemma BenignBatchAccepted(budget: Instruction, crank: Instruction)
    requires budget.programId == ComputeBudgetId
    ensures Accepts(InstructionsSysvar([budget, budget, crank], 2))
  {
  }

  /** Benign, foreign, crank (at index 2) is rejected with `Default`, and the log names the foreign program. */
  lemma ForeignBatchRejected(budget: Instruction, foreign: Instruction, crank: Instruction)
    requires budget.programId == ComputeBudgetId && foreign.programId != ComputeBudgetId
    ensures Verdict(InstructionsSysvar([budget, foreign, crank], 2)) == (Err(Custom(Default)), [NotComputeBudget(foreign.programId)])
  {
  }
}
