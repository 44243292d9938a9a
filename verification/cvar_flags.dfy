/**
 `CVarFlags`: a `[Flags]` enum over `int`, tested with `Enum.HasFlag`, which
 holds when every bit of the tested value is set.
 */
module CVarFlags {

  type Flags = bv32

  const None: Flags := 1            // 1 << 0
  const Cheat: Flags := 2           // 1 << 1
  const ArchiveSystem: Flags := 4   // 1 << 2
  const ReadOnly: Flags := 8        // 1 << 3
  const ArchiveUser: Flags := 16    // 1 << 4
  /** No initializer in the enum, so it takes the previous member's value plus one. */
  const Constant: Flags := ArchiveUser + 1

  /** `Enum.HasFlag`. */
  predicate HasFlag(f: Flags, flag: Flags) {
    f & flag == flag
  }

  /** The five explicitly numbered members are distinct single bits. */
  lemma ExplicitMembersAreDistinctBits()
    ensures None & Cheat == 0 && None & ArchiveSystem == 0 && None & ReadOnly == 0 && None & ArchiveUser == 0
    ensures Cheat & ArchiveSystem == 0 && Cheat & ReadOnly == 0 && Cheat & ArchiveUser == 0
    ensures ArchiveSystem & ReadOnly == 0 && ArchiveSystem & ArchiveUser == 0
    ensures ReadOnly & ArchiveUser == 0
    ensures None | Cheat | ArchiveSystem | ReadOnly | ArchiveUser == 31
  {
  }

  /** `Constant` is 17, the union of `None` and `ArchiveUser`. */
  lemma ConstantIsNoneAndArchiveUser()
    ensures Constant == 17 && Constant == None | ArchiveUser
  {
  }

  /** Any flag set holding both the `None` and `ArchiveUser` bits counts as `Constant`, and only those do. */
  lemma HasConstantIffNoneAndArchiveUser(f: Flags)
    ensures HasFlag(f, Constant) <==> HasFlag(f, None) && HasFlag(f, ArchiveUser)
  {
  }

  /** `Constant` lacks the `ReadOnly` bit, and a `Constant` variable also reports `ArchiveUser` and `None`. */
  lemma ConstantOverlaps()
    ensures !HasFlag(Constant, ReadOnly)
    ensures HasFlag(Constant, ArchiveUser) && HasFlag(Constant, None)
  {
  }

  /** The value `Constant` was evidently meant to have: the next free bit, `1 << 5`. */
  const IntendedConstant: Flags := 32

  lemma IntendedConstantIsAFreshBit(f: Flags)
    ensures IntendedConstant & (None | Cheat | ArchiveSystem | ReadOnly | ArchiveUser) == 0
    ensures !HasFlag(None | ArchiveUser, IntendedConstant)
    ensures HasFlag(f, IntendedConstant) <==> f & 32 != 0
  {
  }
}
