/**
 * The control-flow classifiers of src/arch/x86_64.py. An instruction here
 * is a triple: its encoding, its text and a control-flow direction mark,
 * where `X` and `-` flag a transfer of control.
 */
module X86_64 {
  import opened PyStr
  import opened Arch

  /** `(hex_code, instr, control_flow_dir)`, the triple the classifiers index. */
  type X86Instr = (int, string, string)

  /** The test of `is_control_flow_end` on a mnemonic (lines 51-54): cut at its first `.`, it is `ret`. */
  function EndMnemonic(m: string): (r: bool)
    ensures r <==> (m == "ret" || (|m| > 3 && m[..4] == "ret."))
  {
    CutRet(m);
    RetCut(m);
    CutAtDot(m) == "ret"
  }

  lemma CutRet(m: string)
    ensures CutAtDot(m) == "ret" ==> m == "ret" || (|m| > 3 && m[..4] == "ret.")
  {
  }

  lemma RetCut(m: string)
    ensures |m| > 3 && m[..4] == "ret." ==> CutAtDot(m) == "ret"
  {
    if |m| > 3 && m[..4] == "ret." {
      assert m == "ret" + "." + m[4..];
      CutAtDotOf("ret", m[4..]);
    }
  }

  /** `is_control_flow_end(instr)` (lines 50-54). */
  function IsControlFlowEnd(instr: X86Instr): bool {
    EndMnemonic(Mnemonic(instr.1))
  }

  /**
   * `is_control_flow_instr(instr)` (lines 42-48): an end, or an instruction
   * whose direction mark is `X` or `-`.
   */
  function IsControlFlowInstr(instr: X86Instr): (r: bool)
    ensures IsControlFlowEnd(instr) ==> r
    ensures !IsControlFlowEnd(instr) ==> (r <==> instr.2 == "X" || instr.2 == "-")
  {
    if IsControlFlowEnd(instr) then true
    else if instr.2 == "X" || instr.2 == "-" then true
    else false
  }

  /** Only `ret` ends a block: `retq`, `iret`, `jmp` and `call` do not. */
  lemma OtherTransfersNotEnds(m: string)
    requires m in ["retq", "retl", "iret", "iretq", "jmp", "call", "ud2", "hlt"]
    ensures !EndMnemonic(m)
  {
  }

  /** Only the mnemonic matters to `is_control_flow_end`: operands after a tab and the encoding never change it. */
  lemma OnlyMnemonic(code: int, other: int, m: string, operands: string, dir: string)
    requires '\t' !in m
    ensures IsControlFlowEnd((code, m + "\t" + operands, dir)) == IsControlFlowEnd((other, m, dir))
  {
    MnemonicOperands(m, operands);
  }

  /** A `ret` with operands ends a block whatever its direction mark says. */
  lemma RetEnds(code: int, operands: string, dir: string)
    ensures IsControlFlowEnd((code, "ret\t" + operands, dir))
    ensures IsControlFlowInstr((code, "ret\t" + operands, dir))
  {
    assert "ret\t" + operands == "ret" + "\t" + operands;
    MnemonicOf("ret", operands);
  }
}
