/** The devirtualization pass: after dependency analysis, a virtual call
    whose receiver can only reach one declaring implementation becomes a
    direct (special) call bound to that implementation. */
module Devirtualization {
  import opened Common

  datatype InvocationType = Special | Virtual

  /** An instruction of a basic block; only invocations matter to the pass.
      The instance is the receiver variable's index (None for a static call). */
  datatype Instruction =
    | Invoke(invocationType: InvocationType, callee: MethodRef, instance: Option<nat>)
    | OtherInstruction(opcode: string)

  /** What the analysis tells about one method: for each program variable,
      the names of the classes whose instances may reach it. */
  datatype MethodInformation = MethodInformation(variables: seq<seq<string>>)

  /** The class declares a method with this descriptor (ClassReader.getMethod). */
  predicate Declares(classSource: ClassSource, className: string, desc: MethodDescriptor)
  {
    className in classSource && desc in classSource[className].methods
  }

  /** getImplementations: the loop over the receiver's classes, collecting
      (className, desc) for every class that resolves and declares desc. */
  function Implementations(classSource: ClassSource, classNames: seq<string>, desc: MethodDescriptor)
    : (r: set<MethodRef>)
    ensures forall m :: m in r <==> m.desc == desc && m.className in classNames && Declares(classSource, m.className, desc)
    ensures |r| <= |classNames|
    decreases |classNames|
  {
    if classNames == [] then {}
    else
      var prev := Implementations(classSource, classNames[..|classNames| - 1], desc);
      var c := classNames[|classNames| - 1];
      assert forall x :: x in classNames <==> x in classNames[..|classNames| - 1] || x == c;
      if Declares(classSource, c, desc) then prev + {MethodRef(c, desc)} else prev
  }

  /** Duplicates and order of the receiver's classes do not matter. */
  lemma ImplementationsDependOnlyOnClassSet(classSource: ClassSource, a: seq<string>, b: seq<string>, desc: MethodDescriptor)
    requires forall c :: c in a <==> c in b
    ensures Implementations(classSource, a, desc) == Implementations(classSource, b, desc)
  {
  }

  lemma SingletonElement<T>(s: set<T>, x: T)
    requires |s| == 1 && x in s
    ensures s == {x}
  {
    var rest := s - {x};
    assert s == rest + {x};
    assert |rest| == 0;
    assert rest == {};
  }

  /** The only element of a one-element set. */
  function TheElement<T>(s: set<T>): (x: T)
    requires |s| == 1
    ensures s == {x}
  {
    var x :| x in s;
    SingletonElement(s, x);
    x
  }

  /** The receiver index of every virtual call names a variable of the
      analysed method. */
  predicate Analyzable(info: MethodInformation, insn: Instruction)
  {
    insn.Invoke? && insn.invocationType == Virtual ==>
      insn.instance.Some? && insn.instance.value < |info.variables|
  }

  /** The reference definition of the rewrite of one instruction. */
  function DevirtualizeInstruction(classSource: ClassSource, info: MethodInformation, insn: Instruction): Instruction
    requires Analyzable(info, insn)
  {
    if insn.Invoke? && insn.invocationType == Virtual then
      var impls := Implementations(classSource, info.variables[insn.instance.value], insn.callee.desc);
      if |impls| == 1 then Invoke(Special, TheElement(impls), insn.instance) else insn
    else insn
  }

  /** An instruction changes exactly when it is a virtual call with exactly
      one implementation; it then becomes a special call to a method with
      the same descriptor, declared by a class that reaches the receiver. */
  lemma RewriteExactlyOnSingleTarget(classSource: ClassSource, info: MethodInformation, insn: Instruction)
    requires Analyzable(info, insn)
    ensures var r := DevirtualizeInstruction(classSource, info, insn);
            (r != insn) <==>
              (insn.Invoke? && insn.invocationType == Virtual
               && |Implementations(classSource, info.variables[insn.instance.value], insn.callee.desc)| == 1)
    ensures var r := DevirtualizeInstruction(classSource, info, insn);
            r != insn ==>
              && r.Invoke? && r.invocationType == Special && r.instance == insn.instance
              && {r.callee} == Implementations(classSource, info.variables[insn.instance.value], insn.callee.desc)
              && r.callee.desc == insn.callee.desc
              && r.callee.className in info.variables[insn.instance.value]
              && Declares(classSource, r.callee.className, insn.callee.desc)
  {
  }

  /** Two receiver classes that both declare the method keep the call virtual. */
  lemma TwoImplementationsStayVirtual(classSource: ClassSource, info: MethodInformation, insn: Instruction, a: string, b: string)
    requires Analyzable(info, insn) && insn.Invoke? && insn.invocationType == Virtual
    requires a != b && a in info.variables[insn.instance.value] && b in info.variables[insn.instance.value]
    requires Declares(classSource, a, insn.callee.desc) && Declares(classSource, b, insn.callee.desc)
    ensures DevirtualizeInstruction(classSource, info, insn) == insn
  {
    var impls := Implementations(classSource, info.variables[insn.instance.value], insn.callee.desc);
    var ma, mb := MethodRef(a, insn.callee.desc), MethodRef(b, insn.callee.desc);
    assert {ma, mb} <= impls;
    assert |{ma, mb}| == 2;
  }

  /** When one receiver class alone declares the method, the call is bound
      to that class's method. */
  lemma OneImplementationBinds(classSource: ClassSource, info: MethodInformation, insn: Instruction, a: string)
    requires Analyzable(info, insn) && insn.Invoke? && insn.invocationType == Virtual
    requires a in info.variables[insn.instance.value] && Declares(classSource, a, insn.callee.desc)
    requires forall c :: c in info.variables[insn.instance.value] && Declares(classSource, c, insn.callee.desc) ==> c == a
    ensures DevirtualizeInstruction(classSource, info, insn) ==
            Invoke(Special, MethodRef(a, insn.callee.desc), insn.instance)
  {
    var impls := Implementations(classSource, info.variables[insn.instance.value], insn.callee.desc);
    assert impls == {MethodRef(a, insn.callee.desc)};
  }

  predicate BlocksAnalyzable(info: MethodInformation, blocks: seq<seq<Instruction>>)
  {
    forall i, j :: 0 <= i < |blocks| && 0 <= j < |blocks[i]| ==> Analyzable(info, blocks[i][j])
  }

  /** The reference definition of the pass over a method's basic blocks:
      nothing changes when the method has no dependency information. */
  function DevirtualizeBlocks(classSource: ClassSource, info: Option<MethodInformation>, blocks: seq<seq<Instruction>>)
    : (r: seq<seq<Instruction>>)
    requires info.Some? ==> BlocksAnalyzable(info.value, blocks)
    ensures |r| == |blocks| && forall i :: 0 <= i < |r| ==> |r[i]| == |blocks[i]|
    ensures info.None? ==> r == blocks
  {
    if info.None? then blocks
    else
      seq(|blocks|, i requires 0 <= i < |blocks| => DevirtualizeBlock(classSource, info.value, blocks[i]))
  }

  /** The rewrite of one basic block, instruction by instruction. */
  function DevirtualizeBlock(classSource: ClassSource, info: MethodInformation, block: seq<Instruction>)
    : (r: seq<Instruction>)
    requires forall j :: 0 <= j < |block| ==> Analyzable(info, block[j])
    ensures |r| == |block|
  {
    seq(|block|, j requires 0 <= j < |block| => DevirtualizeInstruction(classSource, info, block[j]))
  }

  /** Rewriting keeps every instruction analysable. */
  lemma RewriteKeepsAnalyzable(classSource: ClassSource, info: MethodInformation, insn: Instruction)
    requires Analyzable(info, insn)
    ensures Analyzable(info, DevirtualizeInstruction(classSource, info, insn))
  {
  }

  /** A rewritten call is special, so a second pass leaves it alone: the
      pass is idempotent. */
  lemma DevirtualizeIdempotent(classSource: ClassSource, info: Option<MethodInformation>, blocks: seq<seq<Instruction>>)
    requires info.Some? ==> BlocksAnalyzable(info.value, blocks)
    ensures info.Some? ==> BlocksAnalyzable(info.value, DevirtualizeBlocks(classSource, info, blocks))
    ensures DevirtualizeBlocks(classSource, info, DevirtualizeBlocks(classSource, info, blocks)) ==
            DevirtualizeBlocks(classSource, info, blocks)
  {
    if info.Some? {
      var once := DevirtualizeBlocks(classSource, info, blocks);
      forall i, j | 0 <= i < |once| && 0 <= j < |once[i]|
        ensures Analyzable(info.value, once[i][j])
        ensures DevirtualizeInstruction(classSource, info.value, once[i][j]) == once[i][j]
      {
        RewriteKeepsAnalyzable(classSource, info.value, blocks[i][j]);
      }
      var twice := DevirtualizeBlocks(classSource, info, once);
      assert forall i :: 0 <= i < |once| ==> twice[i] == once[i];
    }
  }

  /** A basic-block list that the pass rewrites in place. */
  class Program {
    var basicBlocks: seq<seq<Instruction>>

    constructor (basicBlocks: seq<seq<Instruction>>)
      ensures this.basicBlocks == basicBlocks
    {
      this.basicBlocks := basicBlocks;
    }

    /** invoke.setType(SPECIAL) and invoke.setMethod(..) on one instruction. */
    method Replace(i: nat, j: nat, insn: Instruction)
      requires i < |basicBlocks| && j < |basicBlocks[i]|
      modifies this
      ensures basicBlocks == old(basicBlocks)[i := old(basicBlocks)[i][j := insn]]
    {
      basicBlocks := basicBlocks[i := basicBlocks[i][j := insn]];
    }
  }

  /** A method under optimisation: its reference and its program. */
  class MethodHolder {
    const reference: MethodRef
    const program: Program

    constructor (reference: MethodRef, program: Program)
      ensures this.reference == reference && this.program == program
    {
      this.reference := reference;
      this.program := program;
    }
  }

  class Devirtualizer {
    const dependency: map<MethodRef, MethodInformation>
    const classSource: ClassSource

    constructor (dependency: map<MethodRef, MethodInformation>, classSource: ClassSource)
      ensures this.dependency == dependency && this.classSource == classSource
    {
      this.dependency := dependency;
      this.classSource := classSource;
    }

    function InformationOf(reference: MethodRef): Option<MethodInformation>
      reads this
    {
      if reference in dependency then Some(dependency[reference]) else None
    }

    /** apply: one pass over the blocks and their instructions, rewriting
        each virtual call with a single implementation in place. */
    method Apply(holder: MethodHolder)
      requires InformationOf(holder.reference).Some? ==>
               BlocksAnalyzable(InformationOf(holder.reference).value, holder.program.basicBlocks)
      modifies holder.program
      ensures holder.program.basicBlocks ==
              DevirtualizeBlocks(classSource, InformationOf(holder.reference), old(holder.program.basicBlocks))
    {
      if holder.reference !in dependency {
        return;
      }
      var info := dependency[holder.reference];
      var program := holder.program;
      ghost var original := program.basicBlocks;
      for i := 0 to |program.basicBlocks|
        invariant |program.basicBlocks| == |original|
        invariant forall k :: 0 <= k < i ==> program.basicBlocks[k] == DevirtualizeBlock(classSource, info, original[k])
        invariant forall k :: i <= k < |original| ==> program.basicBlocks[k] == original[k]
      {
        RewriteBlock(program, i, info);
      }
    }

    /** The inner loop of apply over the instructions of block i. */
    method RewriteBlock(program: Program, i: nat, info: MethodInformation)
      requires i < |program.basicBlocks|
      requires forall j :: 0 <= j < |program.basicBlocks[i]| ==> Analyzable(info, program.basicBlocks[i][j])
      modifies program
      ensures program.basicBlocks ==
              old(program.basicBlocks)[i := DevirtualizeBlock(classSource, info, old(program.basicBlocks[i]))]
    {
      ghost var original := program.basicBlocks;
      ghost var goal := DevirtualizeBlock(classSource, info, original[i]);
      for j := 0 to |program.basicBlocks[i]|
        invariant |program.basicBlocks| == |original| && |program.basicBlocks[i]| == |original[i]|
        invariant forall k :: 0 <= k < |original| && k != i ==> program.basicBlocks[k] == original[k]
        invariant forall l :: 0 <= l < j ==> program.basicBlocks[i][l] == goal[l]
        invariant forall l :: j <= l < |original[i]| ==> program.basicBlocks[i][l] == original[i][l]
      {
        var insn := program.basicBlocks[i][j];
        if !insn.Invoke? {
          continue;
        }
        if insn.invocationType != Virtual {
          continue;
        }
        var implementations := Implementations(classSource, info.variables[insn.instance.value], insn.callee.desc);
        if |implementations| == 1 {
          var target :| target in implementations;
          SingletonElement(implementations, target);
          program.Replace(i, j, Invoke(Special, target, insn.instance));
        }
      }
      assert program.basicBlocks[i] == goal;
      assert program.basicBlocks == original[i := goal];
    }
  }
}
