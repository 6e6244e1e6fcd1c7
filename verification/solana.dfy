/**
 * The part of the Solana runtime that the crank guard relies on: program
 * identities, instructions, and the instructions sysvar with its two
 * loaders. The sysvar account's byte layout is not modelled; the sysvar is
 * the already-deserialized list of the transaction's instructions together
 * with the index of the instruction now executing.
 */
module Solana {

  /** Largest value of a `u16`, the width of the sysvar's instruction count and current index. */
  const U16Max: nat := 0xFFFF

  /** A 32-byte account or program address, held by its base58 text (base58 is one-to-one on 32-byte values). */
  datatype Pubkey = Pubkey(base58: string)

  datatype AccountMeta = AccountMeta(pubkey: Pubkey, isSigner: bool, isWritable: bool)

  /** One instruction of a transaction: the program it targets, its accounts and its data. */
  datatype Instruction = Instruction(programId: Pubkey, accounts: seq<AccountMeta>, data: seq<bv8>)

  /**
   * The instructions sysvar as a program sees it once its account address has
   * been checked: the transaction's top-level instructions and the index of the
   * top-level instruction now executing (for a cross-program invocation, the
   * index of the outer instruction that made the call).
   */
  datatype InstructionsSysvar = InstructionsSysvar(instructions: seq<Instruction>, currentIndex: nat)

  /** The runtime's error for a sysvar read outside the instruction list. */
  datatype ProgramError = InvalidArgument

  datatype Option<+T> = None | Some(value: T)

  datatype Result<+T, +E> = Ok(value: T) | Err(error: E)

  /**
   * What the runtime guarantees of the sysvar it hands a program: the current
   * instruction is one of the transaction's instructions, and the count fits a `u16`.
   */
  predicate ValidSysvar(sysvar: InstructionsSysvar)
  {
    sysvar.currentIndex < |sysvar.instructions| <= U16Max
  }

  /** `load_current_index_checked`: the index of the instruction now executing. */
  function LoadCurrentIndex(sysvar: InstructionsSysvar): (index: nat)
  {
    sysvar.currentIndex
  }

  /**
   * `load_instruction_at_checked`: the instruction at `index`, or
   * `InvalidArgument` when `index` is past the end of the list.
   */
  function LoadInstructionAt(index: nat, sysvar: InstructionsSysvar): (loaded: Result<Instruction, ProgramError>)
  {
    if index < |sysvar.instructions| then Ok(sysvar.instructions[index]) else Err(InvalidArgument)
  }
}
