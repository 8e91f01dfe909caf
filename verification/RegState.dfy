/**
 * Register state with registers that are fields of larger ones: a field is written through to its
 * parent's word and read back from it.
 */
module RegStates {
  import opened Bits
  import opened FlatMaps

  // ---------------------------------------------------------------- words, bit by bit

  predicate Test(x: nat, k: nat) {
    if k == 0 then x % 2 == 1 else Test(x / 2, k - 1)
  }

  // a & ~b
  function AndNot(a: nat, b: nat): (r: nat)
    ensures r <= a
  {
    if a == 0 then 0 else (if a % 2 == 1 && b % 2 == 0 then 1 else 0) + 2 * AndNot(a / 2, b / 2)
  }

  lemma {:induction false} NoBits(k: nat)
    ensures !Test(0, k)
  {
    if k > 0 {
      NoBits(k - 1);
    }
  }

  lemma {:induction false} TestAnd(a: nat, b: nat, k: nat)
    ensures Test(And(a, b), k) <==> Test(a, k) && Test(b, k)
  {
    NoBits(k);
    if k > 0 && a != 0 && b != 0 {
      TestAnd(a / 2, b / 2, k - 1);
    }
  }

  lemma {:induction false} TestOr(a: nat, b: nat, k: nat)
    ensures Test(Or(a, b), k) <==> Test(a, k) || Test(b, k)
  {
    NoBits(k);
    if k > 0 && a != 0 && b != 0 {
      TestOr(a / 2, b / 2, k - 1);
    }
  }

  lemma {:induction false} TestAndNot(a: nat, b: nat, k: nat)
    ensures Test(AndNot(a, b), k) <==> Test(a, k) && !Test(b, k)
  {
    NoBits(k);
    if k > 0 && a != 0 {
      TestAndNot(a / 2, b / 2, k - 1);
    }
  }

  lemma {:induction false} TestUp(x: nat, s: nat, k: nat)
    ensures Test(x * Pow2(s), k) <==> k >= s && Test(x, k - s)
  {
    if s > 0 {
      Doubled(x, Pow2(s - 1));
      if k > 0 {
        TestUp(x, s - 1, k - 1);
      }
    }
  }

  lemma Doubled(x: nat, p: nat)
    ensures x * (2 * p) == 2 * (x * p)
  {
  }

  lemma {:induction false} TestDown(x: nat, s: nat, k: nat)
    ensures Test(Shr(x, s), k) <==> Test(x, k + s)
  {
    if s > 0 {
      Digits(x, 2, Pow2(s - 1));
      TestDown(x / 2, s - 1, k);
    }
  }

  /** Two words with the same bits are the same. */
  lemma {:induction false} SameBits(a: nat, b: nat)
    requires forall k: nat :: Test(a, k) <==> Test(b, k)
    ensures a == b
    decreases a + b
  {
    assert Test(a, 0) <==> Test(b, 0);
    if a != 0 || b != 0 {
      forall k: nat
        ensures Test(a / 2, k) <==> Test(b / 2, k)
      {
        assert Test(a, k + 1) <==> Test(b, k + 1);
      }
      SameBits(a / 2, b / 2);
    }
  }

  // ---------------------------------------------------------------- fields

  type Reg = nat

  // Where a register lives: the register that holds its bits, and which bits of it.
  datatype RegMapInfo = RegMapInfo(mapped: Reg, mask: nat, shift: nat)

  const MASK64: nat := U64 - 1

  // A 64-bit left shift drops the bits that leave the word.
  function Shl64(x: nat, s: nat): nat {
    (x * Pow2(s)) % U64
  }

  function Apply(i: RegMapInfo, parent: nat, field: nat): nat {
    Or(AndNot(parent, Shl64(i.mask, i.shift)), Shl64(And(field, i.mask), i.shift))
  }

  function Extract(i: RegMapInfo, word: nat): nat {
    And(Shr(word, i.shift), i.mask)
  }

  // No bit of the mask is shifted out of the word.
  predicate Fits(i: RegMapInfo) { i.mask * Pow2(i.shift) < U64 }

  lemma NothingLost(x: nat, i: RegMapInfo)
    requires Fits(i) && x <= i.mask
    ensures Shl64(x, i.shift) == x * Pow2(i.shift)
  {
    assert x * Pow2(i.shift) <= i.mask * Pow2(i.shift);
  }

  // A bit of a word after a field was written: the field's, if the field has it, and the old one otherwise.
  lemma TestApply(i: RegMapInfo, parent: nat, field: nat, k: nat)
    requires Fits(i)
    ensures Test(Apply(i, parent, field), k)
       <==> if k >= i.shift && Test(i.mask, k - i.shift) then Test(field, k - i.shift) else Test(parent, k)
  {
    hide And, Or, AndNot, Shl64, Test;
    NothingLost(i.mask, i);
    NothingLost(And(field, i.mask), i);
    TestOr(AndNot(parent, Shl64(i.mask, i.shift)), Shl64(And(field, i.mask), i.shift), k);
    TestAndNot(parent, Shl64(i.mask, i.shift), k);
    TestUp(i.mask, i.shift, k);
    TestUp(And(field, i.mask), i.shift, k);
    if k >= i.shift {
      TestAnd(field, i.mask, k - i.shift);
    }
  }

  lemma TestExtract(i: RegMapInfo, word: nat, k: nat)
    ensures Test(Extract(i, word), k) <==> Test(word, k + i.shift) && Test(i.mask, k)
  {
    hide And, Test, Shr;
    TestAnd(Shr(word, i.shift), i.mask, k);
    TestDown(word, i.shift, k);
  }

  /** A field reads back what was written to it, modulo its mask. */
  lemma PutGet(i: RegMapInfo, parent: nat, field: nat)
    requires Fits(i)
    ensures Extract(i, Apply(i, parent, field)) == And(field, i.mask)
  {
    hide And, Test, Apply, Extract;
    forall k: nat
      ensures Test(Extract(i, Apply(i, parent, field)), k) <==> Test(And(field, i.mask), k)
    {
      TestExtract(i, Apply(i, parent, field), k);
      TestApply(i, parent, field, k + i.shift);
      TestAnd(field, i.mask, k);
    }
    SameBits(Extract(i, Apply(i, parent, field)), And(field, i.mask));
  }

  /** The last write of a field is the one that counts, for the whole word. */
  lemma PutPut(i: RegMapInfo, parent: nat, field: nat, again: nat)
    requires Fits(i)
    ensures Apply(i, Apply(i, parent, field), again) == Apply(i, parent, again)
  {
    hide Test, Apply;
    forall k: nat
      ensures Test(Apply(i, Apply(i, parent, field), again), k) <==> Test(Apply(i, parent, again), k)
    {
      TestApply(i, Apply(i, parent, field), again, k);
      TestApply(i, parent, field, k);
      TestApply(i, parent, again, k);
    }
    SameBits(Apply(i, Apply(i, parent, field), again), Apply(i, parent, again));
  }

  // Two fields of one word share no bit of it.
  predicate Disjoint(i: RegMapInfo, j: RegMapInfo) {
    And(Shl64(i.mask, i.shift), Shl64(j.mask, j.shift)) == 0
  }

  lemma DisjointBits(i: RegMapInfo, j: RegMapInfo, k: nat)
    requires Fits(i) && Fits(j) && Disjoint(i, j)
    ensures !(k >= i.shift && Test(i.mask, k - i.shift) && k >= j.shift && Test(j.mask, k - j.shift))
  {
    hide And, Test, Shl64;
    NothingLost(i.mask, i);
    NothingLost(j.mask, j);
    TestAnd(i.mask * Pow2(i.shift), j.mask * Pow2(j.shift), k);
    TestUp(i.mask, i.shift, k);
    TestUp(j.mask, j.shift, k);
    NoBits(k);
  }

  /** Writing a field leaves every field that shares no bit with it. */
  lemma DisjointFields(i: RegMapInfo, j: RegMapInfo, parent: nat, field: nat)
    requires Fits(i) && Fits(j) && Disjoint(i, j)
    ensures Extract(j, Apply(i, parent, field)) == Extract(j, parent)
  {
    hide Test, Apply, Extract, Disjoint;
    forall k: nat
      ensures Test(Extract(j, Apply(i, parent, field)), k) <==> Test(Extract(j, parent), k)
    {
      TestExtract(j, Apply(i, parent, field), k);
      TestExtract(j, parent, k);
      TestApply(i, parent, field, k + j.shift);
      DisjointBits(i, j, k + j.shift);
    }
    SameBits(Extract(j, Apply(i, parent, field)), Extract(j, parent));
  }

  // ---------------------------------------------------------------- the register state

  datatype Update = Update(reg: Reg, data: nat)

  // A register that is not in the bank and not a standard one lives in a word of its own.
  function InfoOf(bank: map<Reg, RegMapInfo>, reg: Reg): RegMapInfo {
    if reg in bank then bank[reg] else RegMapInfo(reg, MASK64, 0)
  }

  // A parent is no field of another register.
  ghost predicate IsBank(bank: map<Reg, RegMapInfo>) {
    forall r :: r in bank ==>
      && Fits(bank[r])
      && bank[r].mapped in bank && bank[bank[r].mapped].mapped == bank[r].mapped && bank[bank[r].mapped].shift == 0
  }

  // One word per parent: writing the parent replaces it, writing a field replaces the field's bits.
  function WriteWord(bank: map<Reg, RegMapInfo>, words: map<Reg, nat>, u: Update): map<Reg, nat> {
    var i := InfoOf(bank, u.reg);
    var before := if i.mapped in words then words[i.mapped] else 0;
    words[i.mapped := if i.mapped == u.reg then u.data else Apply(i, before, u.data)]
  }

  function Replay(bank: map<Reg, RegMapInfo>, updates: seq<Update>): map<Reg, nat> {
    if updates == [] then map[] else WriteWord(bank, Replay(bank, updates[..|updates| - 1]), updates[|updates| - 1])
  }

  lemma ReplayOneMore(bank: map<Reg, RegMapInfo>, updates: seq<Update>, u: Update)
    ensures Replay(bank, updates + [u]) == WriteWord(bank, Replay(bank, updates), u)
  {
    assert (updates + [u])[..|updates + [u]| - 1] == updates;
  }

  function ReadReg(bank: map<Reg, RegMapInfo>, words: map<Reg, nat>, reg: Reg): Option<nat> {
    var i := InfoOf(bank, reg);
    if i.mapped in words then Some(Extract(i, words[i.mapped])) else None
  }

  // ---------------------------------------------------------------- what a register reads

  // Writing the register sets bit k of the word: a parent sets them all, a field those of its mask.
  predicate Sets(bank: map<Reg, RegMapInfo>, reg: Reg, root: Reg, k: nat) {
    var i := InfoOf(bank, reg);
    i.mapped == root && (reg == root || (k >= i.shift && Test(i.mask, k - i.shift)))
  }

  // The bit of its data with which an update sets bit k of the word.
  predicate BitSet(bank: map<Reg, RegMapInfo>, u: Update, root: Reg, k: nat)
    requires Sets(bank, u.reg, root, k)
  {
    Test(u.data, if u.reg == root then k else k - InfoOf(bank, u.reg).shift)
  }

  /** Bit k of a word: as the last update that sets it left it, and 0 when none does. */
  predicate LastBit(bank: map<Reg, RegMapInfo>, updates: seq<Update>, root: Reg, k: nat) {
    if updates == [] then false
    else
      var u := updates[|updates| - 1];
      if Sets(bank, u.reg, root, k) then BitSet(bank, u, root, k)
      else LastBit(bank, updates[..|updates| - 1], root, k)
  }

  lemma {:induction false} ReplayBits(bank: map<Reg, RegMapInfo>, updates: seq<Update>, root: Reg, k: nat)
    requires IsBank(bank)
    ensures var words := Replay(bank, updates);
            LastBit(bank, updates, root, k) <==> root in words && Test(words[root], k)
  {
    hide Test, Apply, Fits, IsBank;
    if updates != [] {
      var u, words := updates[|updates| - 1], Replay(bank, updates[..|updates| - 1]);
      ReplayBits(bank, updates[..|updates| - 1], root, k);
      InfoFits(bank, u.reg);
      TestApply(InfoOf(bank, u.reg), if root in words then words[root] else 0, u.data, k);
      NoBits(k);
    }
  }

  lemma {:induction false} ReplayHas(bank: map<Reg, RegMapInfo>, updates: seq<Update>, root: Reg)
    ensures root in Replay(bank, updates) <==> exists u :: u in updates && InfoOf(bank, u.reg).mapped == root
  {
    hide Apply, InfoOf;
    if updates != [] {
      var n := |updates| - 1;
      ReplayHas(bank, updates[..n], root);
      assert updates == updates[..n] + [updates[n]];
    }
  }

  /**
   * After any updates a register reads, bit by bit, what the last update that sets the bit wrote
   * there; it reads at all exactly when some register of its word was written.
   */
  lemma ReadsLastBits(bank: map<Reg, RegMapInfo>, updates: seq<Update>, reg: Reg)
    requires IsBank(bank)
    ensures var i, value := InfoOf(bank, reg), ReadReg(bank, Replay(bank, updates), reg);
            && (value.Some? <==> exists u :: u in updates && InfoOf(bank, u.reg).mapped == i.mapped)
            && (value.Some? ==>
                  forall k: nat ::
                    Test(value.value, k) <==> Test(i.mask, k) && LastBit(bank, updates, i.mapped, k + i.shift))
  {
    hide Test, LastBit, Replay, Extract, IsBank;
    var i, words := InfoOf(bank, reg), Replay(bank, updates);
    ReplayHas(bank, updates, i.mapped);
    if i.mapped in words {
      forall k: nat
        ensures Test(Extract(i, words[i.mapped]), k) <==>
                Test(i.mask, k) && LastBit(bank, updates, i.mapped, k + i.shift)
      {
        TestExtract(i, words[i.mapped], k);
        ReplayBits(bank, updates, i.mapped, k + i.shift);
      }
    }
  }

  /** Writing the first register changes a bit that the second one shows. */
  predicate Touches(bank: map<Reg, RegMapInfo>, reg: Reg, shown: Reg) {
    var i, j := InfoOf(bank, reg), InfoOf(bank, shown);
    i.mapped == j.mapped && j.mask != 0 && (reg == j.mapped || !Disjoint(i, j))
  }

  lemma {:induction false} LowestBit(x: nat) returns (k: nat)
    requires x != 0
    ensures Test(x, k)
  {
    if x % 2 == 1 {
      k := 0;
    } else {
      k := LowestBit(x / 2);
      k := k + 1;
    }
  }

  lemma UntouchedBit(bank: map<Reg, RegMapInfo>, reg: Reg, shown: Reg, k: nat)
    requires IsBank(bank) && !Touches(bank, reg, shown) && Test(InfoOf(bank, shown).mask, k)
    ensures !Sets(bank, reg, InfoOf(bank, shown).mapped, k + InfoOf(bank, shown).shift)
  {
    hide Test, Disjoint, IsBank, Fits;
    var i, j := InfoOf(bank, reg), InfoOf(bank, shown);
    InfoFits(bank, reg);
    InfoFits(bank, shown);
    NoBits(k);
    if i.mapped == j.mapped && reg != j.mapped {
      DisjointBits(i, j, k + j.shift);
    }
  }

  lemma TouchedBit(bank: map<Reg, RegMapInfo>, reg: Reg, shown: Reg) returns (k: nat)
    requires IsBank(bank) && Touches(bank, reg, shown)
    ensures Test(InfoOf(bank, shown).mask, k)
    ensures Sets(bank, reg, InfoOf(bank, shown).mapped, k + InfoOf(bank, shown).shift)
  {
    hide Test, And, Shl64, IsBank, Fits;
    var i, j := InfoOf(bank, reg), InfoOf(bank, shown);
    if reg == j.mapped {
      k := LowestBit(j.mask);
    } else {
      InfoFits(bank, reg);
      InfoFits(bank, shown);
      NothingLost(i.mask, i);
      NothingLost(j.mask, j);
      var b := LowestBit(And(i.mask * Pow2(i.shift), j.mask * Pow2(j.shift)));
      TestAnd(i.mask * Pow2(i.shift), j.mask * Pow2(j.shift), b);
      TestUp(i.mask, i.shift, b);
      TestUp(j.mask, j.shift, b);
      k := b - j.shift;
    }
  }

  // Updates that touch nothing of a register leave its bits.
  lemma {:induction false} UntouchedBits(bank: map<Reg, RegMapInfo>, before: seq<Update>, after: seq<Update>, reg: Reg,
                                         k: nat)
    requires IsBank(bank) && Test(InfoOf(bank, reg).mask, k)
    requires forall v :: v in after ==> !Touches(bank, v.reg, reg)
    ensures var i := InfoOf(bank, reg);
            LastBit(bank, before + after, i.mapped, k + i.shift) == LastBit(bank, before, i.mapped, k + i.shift)
  {
    hide Test, IsBank, Touches, Sets;
    if after == [] {
      assert before + after == before;
    } else {
      var n := |after| - 1;
      assert (before + after)[..|before + after| - 1] == before + after[..n];
      UntouchedBits(bank, before, after[..n], reg, k);
      UntouchedBit(bank, after[n].reg, reg, k);
    }
  }

  // A register shows the bits of a word from which every one of its bits was last set.
  lemma Shows(bank: map<Reg, RegMapInfo>, updates: seq<Update>, reg: Reg, u: Update, data: nat)
    requires IsBank(bank) && u in updates && InfoOf(bank, u.reg).mapped == InfoOf(bank, reg).mapped
    requires var i := InfoOf(bank, reg);
             forall k: nat :: Test(i.mask, k) ==> LastBit(bank, updates, i.mapped, k + i.shift) == Test(data, k)
    ensures ReadReg(bank, Replay(bank, updates), reg) == Some(And(data, InfoOf(bank, reg).mask))
  {
    hide Test, LastBit, Replay, ReadReg, IsBank, And;
    var i, value := InfoOf(bank, reg), ReadReg(bank, Replay(bank, updates), reg);
    ReadsLastBits(bank, updates, reg);
    forall k: nat
      ensures Test(value.value, k) <==> Test(And(data, i.mask), k)
    {
      TestAnd(data, i.mask, k);
    }
    SameBits(value.value, And(data, i.mask));
  }

  /** A register reads what was last written to it as long as nothing after touches a bit of it. */
  lemma LastWriteReads(bank: map<Reg, RegMapInfo>, before: seq<Update>, u: Update, after: seq<Update>)
    requires IsBank(bank)
    requires forall v :: v in after ==> !Touches(bank, v.reg, u.reg)
    ensures ReadReg(bank, Replay(bank, before + [u] + after), u.reg) == Some(And(u.data, InfoOf(bank, u.reg).mask))
  {
    hide Test, Replay, ReadReg, IsBank, Touches;
    var all, i := before + [u] + after, InfoOf(bank, u.reg);
    forall k: nat | Test(i.mask, k)
      ensures LastBit(bank, all, i.mapped, k + i.shift) == Test(u.data, k)
    {
      UntouchedBits(bank, before + [u], after, u.reg, k);
      RootAtZero(bank, u.reg);
      assert (before + [u])[..|before + [u]| - 1] == before;
    }
    assert all[|before|] == u;
    Shows(bank, all, u.reg, u, u.data);
  }

  /** A write of a parent replaces all its fields: each reads its bits of what was written there. */
  lemma ParentWriteReads(bank: map<Reg, RegMapInfo>, before: seq<Update>, p: Update, after: seq<Update>, reg: Reg)
    requires IsBank(bank) && InfoOf(bank, reg).mapped == p.reg
    requires forall v :: v in after ==> !Touches(bank, v.reg, reg)
    ensures ReadReg(bank, Replay(bank, before + [p] + after), reg) == Some(Extract(InfoOf(bank, reg), p.data))
  {
    hide Test, Replay, ReadReg, IsBank, Touches;
    var all, i := before + [p] + after, InfoOf(bank, reg);
    RootIsRoot(bank, reg);
    forall k: nat | Test(i.mask, k)
      ensures LastBit(bank, all, i.mapped, k + i.shift) == Test(Shr(p.data, i.shift), k)
    {
      UntouchedBits(bank, before + [p], after, reg, k);
      assert (before + [p])[..|before + [p]| - 1] == before;
      TestDown(p.data, i.shift, k);
    }
    assert all[|before|] == p;
    Shows(bank, all, reg, p, Shr(p.data, i.shift));
  }

  lemma RootAtZero(bank: map<Reg, RegMapInfo>, reg: Reg)
    requires IsBank(bank)
    ensures InfoOf(bank, reg).mapped == reg ==> InfoOf(bank, reg).shift == 0
  {
  }

  lemma RootIsRoot(bank: map<Reg, RegMapInfo>, reg: Reg)
    requires IsBank(bank)
    ensures var root := InfoOf(bank, reg).mapped;
            InfoOf(bank, root).mapped == root
  {
  }

  // ---------------------------------------------------------------- when a write survives

  function Regs(updates: seq<Update>): (regs: seq<Reg>)
    ensures |regs| == |updates| && forall n :: 0 <= n < |updates| ==> regs[n] == updates[n].reg
  {
    seq(|updates|, n requires 0 <= n < |updates| => updates[n].reg)
  }

  predicate Words(updates: seq<Update>) { forall u :: u in updates ==> u.data < U64 }

  // The same data to each of the registers.
  function Flood(regs: seq<Reg>, data: nat): (updates: seq<Update>)
    ensures |updates| == |regs| && forall n :: 0 <= n < |regs| ==> updates[n] == Update(regs[n], data)
  {
    seq(|regs|, n requires 0 <= n < |regs| => Update(regs[n], data))
  }

  lemma {:induction false} AllOnes(n: nat, k: nat)
    ensures Test(Pow2(n) - 1, k) <==> k < n
  {
    NoBits(k);
    if n > 0 && k > 0 {
      AllOnes(n - 1, k - 1);
    }
  }

  lemma {:induction false} NoHighBits(x: nat, n: nat, k: nat)
    requires x < Pow2(n) && n <= k
    ensures !Test(x, k)
  {
    NoBits(k);
    if n > 0 {
      NoHighBits(x / 2, n - 1, k - 1);
    }
  }

  // A bit that a register shows lies inside the word.
  lemma ShownBitInWord(i: RegMapInfo, k: nat)
    requires Fits(i) && Test(i.mask, k)
    ensures k + i.shift < 64
  {
    hide Test, Pow2;
    Pow2Of64();
    TestUp(i.mask, i.shift, k + i.shift);
    if k + i.shift >= 64 {
      NoHighBits(i.mask * Pow2(i.shift), 64, k + i.shift);
    }
  }

  // Flooded with all ones or all zeros, a bit that one of the registers sets takes that value.
  lemma {:induction false} FloodedBit(bank: map<Reg, RegMapInfo>, before: seq<Update>, regs: seq<Reg>, data: nat,
                                      root: Reg, k: nat)
    requires data == 0 || data == MASK64
    requires k < 64 && exists r :: r in regs && Sets(bank, r, root, k)
    ensures LastBit(bank, before + Flood(regs, data), root, k) <==> data != 0
  {
    hide Test, Flood, Sets;
    var n, flood := |regs| - 1, Flood(regs, data);
    var all := before + flood;
    assert all[..|all| - 1] == before + Flood(regs[..n], data) && all[|all| - 1] == Update(regs[n], data);
    if Sets(bank, regs[n], root, k) {
      OnesOrZeros(data, if regs[n] == root then k else ShiftedBit(bank, regs[n], root, k));
    } else {
      assert regs == regs[..n] + [regs[n]];
      FloodedBit(bank, before, regs[..n], data, root, k);
    }
  }

  function ShiftedBit(bank: map<Reg, RegMapInfo>, reg: Reg, root: Reg, k: nat): (b: nat)
    requires Sets(bank, reg, root, k) && reg != root
    ensures b <= k && b == k - InfoOf(bank, reg).shift
  {
    k - InfoOf(bank, reg).shift
  }

  lemma OnesOrZeros(data: nat, k: nat)
    requires (data == 0 || data == MASK64) && k < 64
    ensures Test(data, k) <==> data != 0
  {
    hide Test, Pow2;
    Pow2Of64();
    AllOnes(64, k);
    NoBits(k);
  }

  /**
   * The value last written to a register is what it reads, whatever data the later updates carry,
   * exactly when none of them is to its parent or to a register that shares a bit with it.
   */
  lemma SurvivesExactly(bank: map<Reg, RegMapInfo>, before: seq<Update>, u: Update, regs: seq<Reg>)
    requires IsBank(bank)
    ensures (forall after :: Regs(after) == regs && Words(after) ==>
               ReadReg(bank, Replay(bank, before + [u] + after), u.reg) == Some(And(u.data, InfoOf(bank, u.reg).mask)))
       <==> (forall r :: r in regs ==> !Touches(bank, r, u.reg))
  {
    hide Test, Replay, ReadReg, IsBank, Touches, Flood, Regs, And;
    if r :| r in regs && Touches(bank, r, u.reg) {
      WipedBy(bank, before, u, regs, r);
    } else {
      forall after | Regs(after) == regs && Words(after)
        ensures ReadReg(bank, Replay(bank, before + [u] + after), u.reg) == Some(And(u.data, InfoOf(bank, u.reg).mask))
      {
        forall v | v in after
          ensures !Touches(bank, v.reg, u.reg)
        {
          var n :| 0 <= n < |after| && after[n] == v;
          assert Regs(after)[n] == v.reg;
        }
        LastWriteReads(bank, before, u, after);
      }
    }
  }

  lemma WipedBy(bank: map<Reg, RegMapInfo>, before: seq<Update>, u: Update, regs: seq<Reg>, r: Reg)
    requires IsBank(bank) && r in regs && Touches(bank, r, u.reg)
    ensures exists after :: Regs(after) == regs && Words(after)
              && ReadReg(bank, Replay(bank, before + [u] + after), u.reg) != Some(And(u.data, InfoOf(bank, u.reg).mask))
  {
    hide Test, Replay, ReadReg, IsBank, Touches, Flood, Regs, And, LastBit, Fits, Sets;
    var i := InfoOf(bank, u.reg);
    var k := TouchedBit(bank, r, u.reg);
    InfoFits(bank, u.reg);
    ShownBitInWord(i, k);
    var data := if Test(u.data, k) then 0 else MASK64;
    var after := Flood(regs, data);
    FloodedBit(bank, before + [u], regs, data, i.mapped, k + i.shift);
    assert Regs(after) == regs && Words(after);
    ReadsLastBits(bank, before + [u] + after, u.reg);
    TestAnd(u.data, i.mask, k);
  }

  // ---------------------------------------------------------------- a field that is wiped

  const MASK32: nat := 0xFFFF_FFFF

  const MSECCFG: Reg := 0x747

  const MSECCFGH: Reg := 0x757

  // Two registers of the 32-bit bank: the upper half of a word is a field of the lower one.
  function Rv32Bank(): map<Reg, RegMapInfo> {
    map[MSECCFG := RegMapInfo(MSECCFG, MASK32, 0), MSECCFGH := RegMapInfo(MSECCFG, MASK32, 32)]
  }

  lemma NoCommonBits(x: nat, y: nat, s: nat)
    requires x < Pow2(s)
    ensures And(x, y * Pow2(s)) == 0
  {
    hide And, Test, Pow2;
    forall k: nat
      ensures Test(And(x, y * Pow2(s)), k) <==> Test(0, k)
    {
      TestAnd(x, y * Pow2(s), k);
      TestUp(y, s, k);
      NoBits(k);
      if k >= s {
        NoHighBits(x, s, k);
      }
    }
    SameBits(And(x, y * Pow2(s)), 0);
  }

  lemma HalvesAreDisjoint()
    ensures IsBank(Rv32Bank()) && Disjoint(Rv32Bank()[MSECCFG], Rv32Bank()[MSECCFGH])
  {
    hide And, Pow2, Shl64;
    Pow2Of32();
    NothingLost(MASK32, Rv32Bank()[MSECCFG]);
    NothingLost(MASK32, Rv32Bank()[MSECCFGH]);
    NoCommonBits(MASK32, MASK32, 32);
  }

  lemma NothingAbove(low: nat)
    requires low <= MASK32
    ensures Extract(Rv32Bank()[MSECCFGH], low) == 0
  {
    hide And, Pow2;
    Pow2Of32();
    DivModUnique(low, Pow2(32), 0, low);
  }

  /** The two share no bit, yet writing the lower half, which is the parent, wipes the upper one. */
  lemma LowHalfWipesHigh(high: nat, low: nat)
    requires high < U64 && low <= MASK32
    ensures IsBank(Rv32Bank()) && Disjoint(Rv32Bank()[MSECCFG], Rv32Bank()[MSECCFGH])
    ensures ReadReg(Rv32Bank(), Replay(Rv32Bank(), [Update(MSECCFGH, high)]), MSECCFGH) == Some(And(high, MASK32))
    ensures ReadReg(Rv32Bank(), Replay(Rv32Bank(), [Update(MSECCFGH, high), Update(MSECCFG, low)]), MSECCFGH) == Some(0)
  {
    hide And, Replay, ReadReg, Touches;
    var bank := Rv32Bank();
    HalvesAreDisjoint();
    LastWriteReads(bank, [], Update(MSECCFGH, high), []);
    assert [] + [Update(MSECCFGH, high)] + [] == [Update(MSECCFGH, high)];
    ParentWriteReads(bank, [Update(MSECCFGH, high)], Update(MSECCFG, low), [], MSECCFGH);
    assert [Update(MSECCFGH, high)] + [Update(MSECCFG, low)] + [] == [Update(MSECCFGH, high), Update(MSECCFG, low)];
    NothingAbove(low);
  }

  lemma InfoFits(bank: map<Reg, RegMapInfo>, reg: Reg)
    requires IsBank(bank)
    ensures Fits(InfoOf(bank, reg))
  {
    assert Pow2(0) == 1;
  }

  class STFRegState {
    var regState: map<Reg, nat>
    var regBank: map<Reg, RegMapInfo>
    // the updates accepted since the state was cleared
    ghost var updates: seq<Update>

    ghost predicate Valid()
      reads this
    {
      && IsBank(regBank)
      && forall r :: InfoOf(regBank, r).mapped == r ==>
           (r in regState <==> r in Replay(regBank, updates))
             && (r in regState ==> regState[r] == Replay(regBank, updates)[r])
    }

    constructor (bank: map<Reg, RegMapInfo>)
      requires IsBank(bank)
      ensures Valid() && regBank == bank && updates == []
    {
      regBank, regState, updates := bank, map[], [];
    }

    method StateClear()
      requires Valid()
      modifies `regState, `updates
      ensures Valid() && updates == []
    {
      regState, updates := map[], [];
    }

    /** Writes a register; one that is unknown is added if it is not a standard one, and refused otherwise. */
    method RegStateUpdate(reg: Reg, data: nat, isNonstandardCsr: bool) returns (ok: bool)
      requires Valid()
      modifies this
      ensures Valid() && (ok <==> old(reg in regBank) || isNonstandardCsr)
      ensures updates == old(updates) + if ok then [Update(reg, data)] else []
      ensures forall r :: InfoOf(regBank, r) == old(InfoOf(regBank, r))
    {
      hide Apply, Extract, Fits, IsBank, Replay;
      if reg !in regBank {
        if !isNonstandardCsr {
          return false;
        }
        OneRegisterMore(regBank, reg, updates);
        regBank := regBank[reg := RegMapInfo(reg, MASK64, 0)];
      }
      WriteThrough(reg, data);
      ok := true;
    }

    // The update of a register that is in the bank: through to its parent, and its own entry.
    method WriteThrough(reg: Reg, data: nat)
      requires Valid() && reg in regBank
      modifies `regState, `updates
      ensures Valid() && updates == old(updates) + [Update(reg, data)]
    {
      hide Apply, Extract, Fits, IsBank, Replay;
      RootIsRoot(regBank, reg);
      ReplayOneMore(regBank, updates, Update(reg, data));
      var i := regBank[reg];
      if reg != i.mapped {
        if i.mapped !in regState {
          regState := regState[i.mapped := Apply(i, 0, data)];
        } else {
          regState := regState[i.mapped := Apply(i, regState[i.mapped], data)];
        }
      }
      regState := regState[reg := data];
      updates := updates + [Update(reg, data)];
    }

    /** Reads a register; an unknown one, and one whose word was never written, is an error. */
    method GetRegScalarValue(reg: Reg) returns (value: Option<nat>)
      requires Valid()
      ensures value == if reg in regBank then ReadReg(regBank, Replay(regBank, updates), reg) else None
    {
      hide Extract;
      if reg !in regBank {
        return None;
      }
      var i := regBank[reg];
      if i.mapped !in regState {
        return None;
      }
      value := Some(And(Shr(regState[i.mapped], i.shift), i.mask));
      ExtractIs(i, regState[i.mapped]);
    }
  }

  lemma ExtractIs(i: RegMapInfo, word: nat)
    ensures Extract(i, word) == And(Shr(word, i.shift), i.mask)
  {
  }

  // Adding a register to the bank changes nothing for the updates so far.
  lemma {:induction false} OneRegisterMore(bank: map<Reg, RegMapInfo>, reg: Reg, updates: seq<Update>)
    requires IsBank(bank) && reg !in bank
    ensures var more := bank[reg := RegMapInfo(reg, MASK64, 0)];
            && IsBank(more) && (forall r :: InfoOf(more, r) == InfoOf(bank, r))
            && Replay(more, updates) == Replay(bank, updates)
  {
    hide Apply;
    assert Pow2(0) == 1;
    if updates != [] {
      OneRegisterMore(bank, reg, updates[..|updates| - 1]);
    }
  }
}
