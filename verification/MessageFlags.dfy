/**
 The flag word of a mail message and the pending edits laid over it.  A 32-bit word
 is represented by the set of its one-bits, so that `|`, `& ~` and `&` become union,
 difference and intersection.
 */
module MessageFlags {

  type Word = set<nat>

  // Bit numbers of the Camel message flags the folder code tests.
  const ANSWERED: nat := 0
  const DELETED: nat := 1
  const FLAGGED: nat := 3
  const SEEN: nat := 4
  const ANSWERED_ALL: nat := 6

  /** `word` with the bits of `mask` taken from `bits`. */
  function Overlay(word: Word, bits: Word, mask: Word): Word {
    bits * mask + (word - mask)
  }

  function WithSeen(word: Word, seen: bool): Word {
    if seen then word + {SEEN} else word - {SEEN}
  }

  function FlipSeen(word: Word): Word {
    WithSeen(word, SEEN !in word)
  }

  /** A pending read-state edit that disagrees with the stored read state. */
  predicate Contradicts(flags: Word, changeFlags: Word, changeMask: Word) {
    SEEN in changeMask && (SEEN in changeFlags) != (SEEN in flags)
  }

  // ---- editing -------------------------------------------------------------

  /** The stored word after an edit: a change of SEEN is written at once. */
  function EditedFlags(flags: Word, bits: Word, mask: Word): Word {
    if SEEN in mask && (SEEN in flags) != (SEEN in bits) then FlipSeen(flags) else flags
  }

  /** The part of an edit that is queued: SEEN is dropped when already as asked. */
  function EditedMask(flags: Word, bits: Word, mask: Word): Word {
    if SEEN in mask && (SEEN in flags) == (SEEN in bits) then mask - {SEEN} else mask
  }

  /** Pending bits overwritten by those of a further edit. */
  function MergedBits(changeFlags: Word, bits: Word, mask: Word): Word {
    (changeFlags + bits * mask) - (mask - bits)
  }

  // ---- flushing ------------------------------------------------------------

  /** The flag word once a pending read-state edit has been sent. */
  function FlushedFlags(flags: Word, changeFlags: Word, changeMask: Word): Word {
    if SEEN in changeMask then WithSeen(flags, SEEN in changeFlags) else flags
  }

  /** The bits still to be sent: the flusher knows SEEN, ANSWERED and FLAGGED. */
  function FlushedMask(mask: Word): Word {
    (if ANSWERED in mask then mask - {ANSWERED, ANSWERED_ALL} else mask) - {SEEN, FLAGGED}
  }

  // ---- what an edit does to the effective word -----------------------------

  /**
   An edit has the requested effect on the effective word exactly when it does not set
   SEEN to the stored value while a contradicting edit of SEEN is pending.
   */
  lemma EditedWord(flags: Word, changeFlags: Word, changeMask: Word, bits: Word, mask: Word)
    ensures var left := EditedMask(flags, bits, mask);
            Overlay(EditedFlags(flags, bits, mask), MergedBits(changeFlags, bits, left), changeMask + left)
            == Overlay(Overlay(flags, changeFlags, changeMask), bits, mask)
            <==> !(SEEN in mask && (SEEN in flags) == (SEEN in bits) && Contradicts(flags, changeFlags, changeMask))
  {
    var left := EditedMask(flags, bits, mask);
    var after := Overlay(EditedFlags(flags, bits, mask), MergedBits(changeFlags, bits, left), changeMask + left);
    var asked := Overlay(Overlay(flags, changeFlags, changeMask), bits, mask);
    assert forall b: nat :: b != SEEN ==> (b in after <==> b in asked);
    assert (SEEN in after <==> SEEN in asked) ==> after == asked;
  }

  lemma EditedContradicts(flags: Word, changeFlags: Word, changeMask: Word, bits: Word, mask: Word)
    requires !Contradicts(flags, changeFlags, changeMask)
    ensures var left := EditedMask(flags, bits, mask);
            !Contradicts(EditedFlags(flags, bits, mask), MergedBits(changeFlags, bits, left), changeMask + left)
  {
  }
}
