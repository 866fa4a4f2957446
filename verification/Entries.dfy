/**
 Page-table entries as 64-bit words, and as the entries modules Cow and Vm reason
 about: the flag arithmetic of uvmcopy, cowalloc and mappages does what those say.
 */
module Entries {
  import Cow
  import opened PageTable

  const PTE_R: Word := 0x2
  const PTE_W: Word := 0x4
  const PTE_X: Word := 0x8
  const PTE_U: Word := 0x10
  const PTE_F: Word := 0x100

  function FrameOf(pa: Addr): nat {
    (pa.bits >> 12) as nat
  }

  /** A valid word as an entry. */
  function Decode(pte: Word): Cow.Pte {
    Cow.Pte(FrameOf(PaOf(pte)), pte & PTE_W != 0, pte & PTE_F != 0, pte & PTE_U != 0)
  }

  /** The word uvmcopy leaves in the parent's table, and gives the child. */
  function Marking(pte: Word): Word {
    if pte & PTE_W != 0 then PteOf(PaOf(pte)) | ((Flags(pte) | PTE_F) & !PTE_W) else pte
  }

  /** The word cowalloc leaves where it owns the frame. */
  function Owning(pte: Word): Word {
    (pte | PTE_W) & !PTE_F
  }

  /** The word mappages stores. */
  function Mapping(pa: Addr, perm: Word): Word {
    PteOf(pa) | perm | PTE_V
  }

  /** The word mappages stores for cowalloc's copy, from the entry with PTE_V cleared. */
  function Copying(pte: Word, copy: Addr): Word {
    Mapping(copy, (Flags(pte & !PTE_V) | PTE_W) & !PTE_F)
  }

  /** Marking keeps the frame, clears PTE_W, sets PTE_F and leaves every other flag. */
  lemma MarkingBits(pte: Word)
    requires IsValid(pte) && pte & PTE_W != 0
    ensures IsValid(Marking(pte)) && PaOf(Marking(pte)) == PaOf(pte)
    ensures Flags(Marking(pte)) == (Flags(pte) & !PTE_W) | PTE_F
  {}

  /** An entry without PTE_W is shared as it is; mappages stores the same word for the child. */
  lemma SharingBits(pte: Word)
    requires IsValid(pte) && pte >> 54 == 0
    ensures Mapping(PaOf(Marking(pte)), Flags(Marking(pte))) == Marking(pte)
  {}

  lemma OwningBits(pte: Word)
    requires IsValid(pte)
    ensures IsValid(Owning(pte)) && PaOf(Owning(pte)) == PaOf(pte)
    ensures Flags(Owning(pte)) == (Flags(pte) | PTE_W) & !PTE_F
  {}

  lemma CopyingBits(pte: Word, copy: Addr)
    requires IsValid(pte) && Aligned(copy.bits)
    ensures IsValid(Copying(pte, copy)) && PaOf(Copying(pte, copy)) == copy
    ensures Flags(Copying(pte, copy)) == (Flags(pte) | PTE_W) & !PTE_F
  {}

  /** The three flags the copy-on-write scheme reads are those of the low ten bits. */
  lemma FlagsDecide(pte: Word)
    ensures pte & PTE_W == Flags(pte) & PTE_W && pte & PTE_F == Flags(pte) & PTE_F && pte & PTE_U == Flags(pte) & PTE_U
  {}

  lemma MarkedFlags(flags: Word)
    ensures ((flags & !PTE_W) | PTE_F) & PTE_W == 0 && ((flags & !PTE_W) | PTE_F) & PTE_F != 0
    ensures ((flags & !PTE_W) | PTE_F) & PTE_U == flags & PTE_U
  {}

  lemma OwnedFlags(flags: Word)
    ensures ((flags | PTE_W) & !PTE_F) & PTE_W != 0 && ((flags | PTE_W) & !PTE_F) & PTE_F == 0
    ensures ((flags | PTE_W) & !PTE_F) & PTE_U == flags & PTE_U
  {}

  // ---- The steps of module Cow ----

  /** uvmcopy on a writable page: the parent's word and the child's are the marked entry. */
  lemma MarkRefines(s: Cow.Sys, k: Cow.Key, pte: Word)
    requires k in s.pt && IsValid(pte) && pte >> 54 == 0 && Decode(pte) == s.pt[k] && s.pt[k].w
    ensures IsValid(Marking(pte)) && Decode(Marking(pte)) == Cow.Marked(s, k).pt[k]
    ensures Mapping(PaOf(Marking(pte)), Flags(Marking(pte))) == Marking(pte)
  {
    hide Marking, PaOf, Flags, PteOf;
    MarkingBits(pte);
    SharingBits(pte);
    MarkedFlags(Flags(pte));
    FlagsDecide(pte);
    FlagsDecide(Marking(pte));
  }

  /** uvmcopy on any other page: the child gets the parent's word. */
  lemma ShareRefines(pte: Word)
    requires IsValid(pte) && pte >> 54 == 0 && !Decode(pte).w
    ensures Marking(pte) == pte && Mapping(PaOf(pte), Flags(pte)) == pte
  {
    SharingBits(pte);
  }

  /** cowalloc with a count of one. */
  lemma OwnRefines(s: Cow.Sys, k: Cow.Key, pte: Word)
    requires k in s.pt && IsValid(pte) && Decode(pte) == s.pt[k]
    ensures IsValid(Owning(pte)) && Decode(Owning(pte)) == Cow.Owned(s, k).pt[k]
  {
    hide Owning, PaOf, Flags;
    OwningBits(pte);
    OwnedFlags(Flags(pte));
    FlagsDecide(pte);
    FlagsDecide(Owning(pte));
  }

  /** cowalloc with a larger count. */
  lemma CopyRefines(s: Cow.Sys, k: Cow.Key, pte: Word, copy: Addr)
    requires k in s.pt && IsValid(pte) && Decode(pte) == s.pt[k] && Aligned(copy.bits)
    requires s.pt[k].frame in s.ref && s.ref[s.pt[k].frame] >= 1
    ensures IsValid(Copying(pte, copy)) && Decode(Copying(pte, copy)) == Cow.Copied(s, k, FrameOf(copy)).pt[k]
  {
    hide Copying, PaOf, Flags;
    CopyingBits(pte, copy);
    OwnedFlags(Flags(pte));
    FlagsDecide(pte);
    FlagsDecide(Copying(pte, copy));
  }

  /** uvmalloc and the fault handler: a fresh page, writable by the user. */
  lemma MapRefines(s: Cow.Sys, k: Cow.Key, pa: Addr)
    requires Aligned(pa.bits)
    ensures var pte := Mapping(pa, PTE_W | PTE_X | PTE_R | PTE_U);
            IsValid(pte) && Decode(pte) == Cow.Mapped(s, k, FrameOf(pa), true).pt[k]
  {
    var perm := PTE_W | PTE_X | PTE_R | PTE_U;
    EntryRoundTrip(pa, perm);
    FlagsDecide(Mapping(pa, perm));
  }
}
