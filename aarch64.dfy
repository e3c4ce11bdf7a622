/**
 * The control-flow classifiers of src/arch/aarch64.py. Only the mnemonic
 * of an instruction counts: the first tab field of its text, stripped
 * (`Arch.Mnemonic`). The mnemonics listed are the A64 branches of section
 * C3.1 of the Arm Architecture Reference Manual for A-profile
 * architecture: unconditional branches, compare-and-branch,
 * test-and-branch, conditional branches and the pointer-authenticating
 * branches and returns.
 */
module Aarch64 {
  import opened PyStr
  import opened Arch

  /** The list of `is_control_flow_instr`, in source order, `b.c` included. */
  const BranchList: seq<string> := [
    "b", "bl", "br", "blr", "ret", "cbz", "cbnz", "tbnz", "tbz", "b.c",
    "braa", "brab", "blraa", "blrab", "braaz", "brabz", "blraaz", "blrabz", "retaa", "retab"]

  /** The same list without `b.c`, the one entry a mnemonic cut at its first `.` can never equal. */
  const LiveBranches: seq<string> := [
    "b", "bl", "br", "blr", "ret", "cbz", "cbnz", "tbnz", "tbz",
    "braa", "brab", "blraa", "blrab", "braaz", "brabz", "blraaz", "blrabz", "retaa", "retab"]

  /** The list of `is_control_flow_end`. */
  const ReturnList: seq<string> := ["ret", "retaa", "retab"]

  /**
   * The test of `is_control_flow_instr` on a mnemonic (lines 41-50): cut at
   * its first `.`, it is in the branch list. The `b.c` entry is dead: the
   * cut leaves no `.`, so the answer is the same without it.
   */
  function BranchMnemonic(m: string): (r: bool)
    ensures r <==> CutAtDot(m) in LiveBranches
  {
    var c := CutAtDot(m);
    assert c != "b.c" by {
      assert "b.c"[1] == '.';
    }
    c in BranchList
  }

  /**
   * The test of `is_control_flow_end` on a mnemonic (lines 53-56): its
   * `if '.' in instr` branch assigns the mnemonic to itself, so no cut
   * happens and only a mnemonic without `.` can be in the list. Every end
   * is a branch.
   */
  function EndMnemonic(m: string): (r: bool)
    ensures r ==> '.' !in m && BranchMnemonic(m)
  {
    m in ReturnList
  }

  /** `is_control_flow_instr(instr)` */
  function IsControlFlowInstr(instr: Instr): bool {
    BranchMnemonic(Mnemonic(instr.1))
  }

  /** `is_control_flow_end(instr)` */
  function IsControlFlowEnd(instr: Instr): (r: bool)
    ensures r ==> IsControlFlowInstr(instr)
  {
    EndMnemonic(Mnemonic(instr.1))
  }

  /** Only the mnemonic matters: operands after a tab and the encoding never change either answer. */
  lemma OnlyMnemonic(code: int, other: int, m: string, operands: string)
    requires '\t' !in m
    ensures IsControlFlowInstr((code, m + "\t" + operands)) == IsControlFlowInstr((other, m))
    ensures IsControlFlowEnd((code, m + "\t" + operands)) == IsControlFlowEnd((other, m))
  {
    MnemonicOperands(m, operands);
  }

  /** Every conditional branch `b.<cond>` is a branch, and none is an end. */
  lemma CondBranch(cond: string)
    ensures BranchMnemonic("b." + cond) && !EndMnemonic("b." + cond)
  {
    var m := "b." + cond;
    assert m == "b" + "." + cond;
    CutAtDotOf("b", cond);
    assert "b" in LiveBranches;
    assert m[1] == '.';
  }

  /** `b`, `br` and `blr` are branches but not ends. */
  lemma PlainBranches(m: string)
    requires m == "b" || m == "br" || m == "blr"
    ensures BranchMnemonic(m) && !EndMnemonic(m)
  {
    assert '.' !in m;
  }

  /**
   * The cut applies to `is_control_flow_instr` only: `ret.<x>` is a branch
   * (it is cut to `ret`) but never an end.
   */
  lemma DottedReturn(suffix: string)
    ensures BranchMnemonic("ret." + suffix) && !EndMnemonic("ret." + suffix)
  {
    var m := "ret." + suffix;
    assert m == "ret" + "." + suffix;
    CutAtDotOf("ret", suffix);
    assert "ret" in LiveBranches;
    assert m[3] == '.';
  }

  /** Written out as `objdump` prints it, with its operands after a tab, `b.<cond>` is control flow. */
  lemma CondBranchInstr(code: int, cond: string, operands: string)
    requires NoSpace(cond)
    ensures IsControlFlowInstr((code, "b." + cond + "\t" + operands))
    ensures !IsControlFlowEnd((code, "b." + cond + "\t" + operands))
  {
    var m := "b." + cond;
    assert NoSpace(m) by {
      assert forall i :: 2 <= i < |m| ==> m[i] == cond[i - 2];
    }
    MnemonicOf(m, operands);
    CondBranch(cond);
  }
}
