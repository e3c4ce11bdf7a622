/**
 * The control-flow classifier of src/arch/riscv64.py. The disassembly is
 * read with `-M no-aliases`, so mnemonics are the base and compressed
 * instructions themselves (sections 2.5 and 16.4 of the RISC-V
 * Unprivileged ISA), never pseudo-instructions such as `ret`, `j` or
 * `beqz`. Matching is exact: no cut at `.` as on the other architectures.
 */
module Riscv64 {
  import opened PyStr
  import opened Arch

  /** The conditional branches and jumps of RV64I (section 2.5). */
  const BaseBranches: seq<string> := ["beq", "bne", "blt", "bge", "bltu", "bgeu", "jal", "jalr"]

  /** The compressed branches and jumps of RV64C (section 16.4). */
  const CompressedBranches: seq<string> := ["c.beqz", "c.bnez", "c.jr", "c.jalr", "c.j"]

  /** The test of `is_control_flow_instr` on a mnemonic (lines 43-46). */
  function BranchMnemonic(m: string): (r: bool)
    ensures r ==> |m| >= 3 && (m[0] == 'b' || m[0] == 'j' || m[..2] == "c.")
  {
    m in BaseBranches + CompressedBranches
  }

  /** `is_control_flow_instr(instr)` (lines 40-46). */
  function IsControlFlowInstr(instr: Instr): bool {
    BranchMnemonic(Mnemonic(instr.1))
  }

  /** Only the mnemonic matters: operands after a tab and the encoding never change the answer. */
  lemma OnlyMnemonic(code: int, other: int, m: string, operands: string)
    requires '\t' !in m
    ensures IsControlFlowInstr((code, m + "\t" + operands)) == IsControlFlowInstr((other, m))
  {
    MnemonicOperands(m, operands);
  }

  /** Pseudo-instructions are not recognised: they only appear when aliases are printed. */
  lemma PseudoNotBranches(m: string)
    requires m in ["ret", "j", "jr", "beqz", "bnez", "bgt", "ble", "call", "tail"]
    ensures !BranchMnemonic(m)
  {
  }

  /** `c.j` matches as written, while `c`, which a cut at `.` would give, does not. */
  lemma CompressedLiteral()
    ensures BranchMnemonic("c.j") && !BranchMnemonic(CutAtDot("c.j"))
  {
    CutAtDotOf("c", "j");
    assert "c" + "." + "j" == "c.j";
  }

  /** Every listed mnemonic, written out with or without operands, is control flow. */
  lemma ListedBranches(code: int, m: string, operands: string)
    requires m in BaseBranches + CompressedBranches
    ensures IsControlFlowInstr((code, m)) && IsControlFlowInstr((code, m + "\t" + operands))
  {
    if m in BaseBranches {
      assert NoSpace(m);
    } else {
      assert m in CompressedBranches;
      assert NoSpace(m);
    }
    MnemonicOf(m, operands);
  }
}
