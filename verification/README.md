# crank-hog-v1: the crank batch guard

This project models `crank_hog`, the one instruction of the crank-hog-v1 Solana program that has behaviour. It is a security gate for the crank call. It reads the instructions sysvar, which holds the transaction's top-level instruction list and the index of the top-level instruction now executing. It then rejects the call with `ErrorCode::Default` when either of these holds:

- another instruction follows the crank;
- some earlier instruction targets a program other than ComputeBudget (`ComputeBudget111111111111111111111111111111`).

The earlier instructions are scanned from just below the crank down to index 0. The scan stops at the first foreign instruction it meets. So no extra top-level instruction can sit before or after the top-level instruction being executed, except compute-budget (fee and priority) adjustments before it. The guard never checks which program the instruction at the current index targets; see `CrankSlotIgnored` and "## Left out".

Files:

- `solana.dfy`, module `Solana`, holds the runtime abstractions:
  - program ids (`Pubkey`) and instructions;
  - the instructions sysvar, as a value holding the instruction list and the current index;
  - `LoadCurrentIndex` and `LoadInstructionAt`, which stand for `load_current_index_checked` and `load_instruction_at_checked`. An index past the end fails with the runtime's `InvalidArgument`;
  - `ValidSysvar`, the runtime's guarantee that the current index lies inside the list.
- `crank_hog.dfy`, module `CrankHogV1`, holds the guard:
  - `CrankHog` is a method whose `while` loop mirrors the source's `loop`. It decrements a local index, stops at 0 and returns early on a rejection;
  - `Verdict` is a specification of the same outcome written without the loop. It is built on `HighestOffender`, the highest position below the crank that does not hold a ComputeBudget instruction;
  - `Accepts` says what the guard is meant to let through.

`CrankHog` is proved equal to `Verdict`. Every property below is proved about `Verdict` and `Accepts`, so it holds of the method as well.

`CrankHog` takes the sysvar by value, has no `modifies` clause and touches no heap. So the guard is read-only on both outcomes by construction. The `msg!` lines are modelled as a returned list of log lines. This makes "the scan stops at the highest foreign instruction and names its program" a stated postcondition.

The guard has no precondition on the sysvar. If the current index were two or more past the end of the list, the `?` on the first load in the scan would return the runtime's `InvalidArgument`, and the model keeps that path. If it were exactly the list length, the scan's first load is in range: the guard then returns `Ok` when every instruction targets ComputeBudget, and `Default` otherwise. On a sysvar the runtime actually supplies (`ValidSysvar`), the only error is `ErrorCode::Default`, and that is proved.

The source reads the current index as a `u16` and widens it to `usize`. So `current_index + 1` cannot overflow, and the decrement happens only after the index was checked to be non-zero. Unbounded `nat` arithmetic is therefore exact here. Dafny also checks that the index never goes below zero, as a subset-type obligation.

## Model

| member | source | states |
|---|---|---|
| `CrankHogV1.CrankHog` | programs/crank-hog-v1/src/lib.rs:26-53 | The result and log lines equal `Verdict`. The result is `Ok` exactly when the crank is last and every instruction below it targets ComputeBudget. On a runtime-supplied sysvar every rejection is `ErrorCode::Default`. The last two facts come from `VerdictAcceptsExactly` and `OnlyDefaultOnValidSysvar`, which the method calls. |
| `CrankHogV1.HighestOffender` | programs/crank-hog-v1/src/lib.rs:35-49 | The position where the backward scan stops. It is `None` exactly when every position below `n` holds a ComputeBudget instruction. Otherwise it is a position below `n` that does not, and every position between it and `n` does. |
| `CrankHogV1.HighestOffenderFound` | programs/crank-hog-v1/src/lib.rs:35-49 | Scanning downward, the first non-ComputeBudget position is the highest offender. |
| `CrankHogV1.LastPositionEnforced` | programs/crank-hog-v1/src/lib.rs:30-33 | When an instruction exists at `current_index + 1`, the verdict is `Err(Default)` and the log says the crank must be last, whatever precedes the crank. |
| `CrankHogV1.LoneCrankAccepted` | programs/crank-hog-v1/src/lib.rs:35-52 | A crank at index 0 that is the only instruction is accepted with no log lines. The loop breaks at once. |
| `CrankHogV1.ForeignInstructionRejected` | programs/crank-hog-v1/src/lib.rs:42-49 | Any instruction below the crank that targets a program other than ComputeBudget gets `Err(Default)`. |
| `CrankHogV1.VerdictAcceptsExactly` | programs/crank-hog-v1/src/lib.rs:27-52 | The verdict is `Ok` if and only if the crank is last and every instruction at indices `0..current_index` targets ComputeBudget. |
| `CrankHogV1.RejectionNamesHighestForeign` | programs/crank-hog-v1/src/lib.rs:44-48 | If the highest foreign instruction below the crank is at `j`, the call fails with `Default`. Its one log line names the program that instruction `j` targets. |
| `CrankHogV1.OnlyDefaultOnValidSysvar` | programs/crank-hog-v1/src/lib.rs:30-49 | On a runtime-supplied sysvar both rejection paths give the same error, `ErrorCode::Default`. The scan's loads never fail. |
| `CrankHogV1.HighestOffenderByProgramIds` | programs/crank-hog-v1/src/lib.rs:44-46 | The scan's stopping point below `n` depends only on the program ids of the instructions below `n`. |
| `CrankHogV1.VerdictIgnoresAccountsAndData` | programs/crank-hog-v1/src/lib.rs:42-46 | Two batches with the same crank index, length and program ids get the same verdict. Instruction accounts and data play no part. |
| `CrankHogV1.CrankSlotIgnored` | programs/crank-hog-v1/src/lib.rs:28-50 | Replacing the instruction at the current index with any instruction, for any program, leaves the verdict unchanged: the guard never reads that slot. |
| `CrankHogV1.SmuggledBeforeRejected` | programs/crank-hog-v1/src/lib.rs:35-49 | Inserting an instruction for any other program anywhere before the crank is rejected. The crank moves up one place. |
| `CrankHogV1.SmuggledAfterRejected` | programs/crank-hog-v1/src/lib.rs:30-33 | Inserting any instruction after the crank is rejected. |
| `CrankHogV1.BenignBatchAccepted` | programs/crank-hog-v1/src/lib.rs:26-53 | The batch ComputeBudget, ComputeBudget, crank (crank at index 2) is accepted. |
| `CrankHogV1.ForeignBatchRejected` | programs/crank-hog-v1/src/lib.rs:26-53 | The batch ComputeBudget, foreign, crank (crank at index 2) is rejected with `Default`. The log names the foreign program. |

## Left out

- `initialize` and its empty `Initialize` accounts struct (lib.rs:22-24, 58-59): the handler does nothing.
- The `CrankHog` accounts struct (lib.rs:61-68): Anchor account binding. The `address = instructions::ID` constraint is modelled only by its result: the guard receives a trustworthy instructions sysvar value, not raw account bytes. The `authority` signer is not read by the guard.
- Sysvar deserialization: the byte layout of the instructions sysvar account is not modelled. The failure of `load_current_index_checked` on malformed account data is therefore not modelled either. Only the out-of-range failure of `load_instruction_at_checked` is kept.
- `Pubkey::from_str(...).unwrap()` (lib.rs:44-45): the ComputeBudget id is a constant `Pubkey` held by its base58 text. Base58 decoding is not modelled, and the `unwrap` cannot fail on this literal.
- `msg!` output is modelled as returned log lines. Formatting of the program id with `{:?}` is not modelled.
- `crate::error::ErrorCode` (the `error` module) is not part of this model beyond its `Default` variant.
- The `reward_amount` stub (lib.rs:13-15) is commented out and empty. The `anchor_spl` token imports (lib.rs:2-5) are unused. No reward accrual, vault record or signed mint exists in this source, so none is modelled.
- `tests/crank-hog-v1.ts` only calls `initialize` over RPC and asserts nothing about the guard.
- Cross-program invocation and call-stack depth are not modelled. The current index names the running top-level instruction, and the guard never checks that this instruction targets crank-hog-v1 (`CrankSlotIgnored`). So a top-level instruction of another program, placed last, that calls `crank_hog` through a cross-program invocation passes the guard whatever else it does. The model does not promise that extra behaviour cannot ride along inside the last top-level instruction.
- Transaction atomicity and rollback belong to the runtime. The guard changes nothing, so there is nothing to roll back.
