/** The C backend's method prologue and epilogue: parameter lists, local and
    temporary declarations, and, for methods that can suspend, the state
    machine over the async parts together with the save and restore of the
    locals on the fiber's stack.  A code writer is the sequence of fragments
    printed to it. */
module CodeGenerator {
  import Common

  /** org.teavm.model.util.VariableType. */
  datatype VariableType =
    | Int | Long | Float | Double | Object
    | ByteArray | ShortArray | CharArray | IntArray | LongArray | FloatArray | DoubleArray | ObjectArray

  /** A variable of a method's AST: its index and its type (None for null). */
  datatype VariableNode = VariableNode(index: nat, varType: Common.Option<VariableType>)

  /** A constant of CVariableType: its C text and its lower-cased name. */
  datatype CVariableType = CVariableType(text: string, lowerName: string)

  const FiberClass: string := "org.teavm.runtime.Fiber"

  /** The value type a variable of this type is pushed and popped as. */
  function StackValueType(t: VariableType): Common.ValueType
  {
    match t
    case Int => Common.Primitive(Common.Int)
    case Long => Common.Primitive(Common.Long)
    case Float => Common.Primitive(Common.Float)
    case Double => Common.Primitive(Common.Double)
    case _ => Common.RootType()
  }

  /** The Fiber.push overload generateSaveVariable calls. */
  function PushMethod(t: VariableType): (m: Common.MethodRef)
    ensures m.className == FiberClass && m.desc.name == "push"
    ensures m.desc.signature == [StackValueType(t), Common.Void]
  {
    var param := match t
      case Int => Common.Primitive(Common.Int)
      case Long => Common.Primitive(Common.Long)
      case Float => Common.Primitive(Common.Float)
      case Double => Common.Primitive(Common.Double)
      case _ => Common.Object(Common.ObjectClass);
    Common.MethodRef(FiberClass, Common.MethodDescriptor("push", [param, Common.Void]))
  }

  /** The Fiber.pop* method generateRestoreVariable calls. */
  function PopMethod(t: VariableType): (m: Common.MethodRef)
    ensures m.className == FiberClass && m.desc.signature == [StackValueType(t)]
  {
    var (name, result) := match t
      case Int => ("popInt", Common.Primitive(Common.Int))
      case Long => ("popLong", Common.Primitive(Common.Long))
      case Float => ("popFloat", Common.Primitive(Common.Float))
      case Double => ("popDouble", Common.Primitive(Common.Double))
      case _ => ("popObject", Common.Object(Common.ObjectClass));
    Common.MethodRef(FiberClass, Common.MethodDescriptor(name, [result]))
  }

  /** The helper chosen for a variable depends only on the kind it is stored
      as: int, long, float and double each have their own, everything else
      shares the object variant; and what is pushed as one kind is popped as
      the same kind. */
  lemma HelpersDependOnlyOnStackKind(t: VariableType, u: VariableType)
    ensures PushMethod(t) == PushMethod(u) <==> StackValueType(t) == StackValueType(u)
    ensures PopMethod(t) == PopMethod(u) <==> StackValueType(t) == StackValueType(u)
    ensures PushMethod(t).desc.signature[0] == PopMethod(t).desc.signature[0]
    ensures t !in {Int, Long, Float, Double} ==> PushMethod(t) == PushMethod(Object) && PopMethod(t) == PopMethod(Object)
  {
  }

  /** One value on the fiber's stack: the C variable it comes from and its type. */
  datatype StackSlot = StackSlot(name: string, slotType: VariableType)

  function LocalName(index: nat): string
  {
    "local_" + Common.NatToString(index)
  }

  lemma LocalNamesDistinct(i: nat, j: nat)
    ensures LocalName(i) == LocalName(j) ==> i == j
  {
    if LocalName(i) == LocalName(j) {
      assert Common.NatToString(i) == LocalName(i)[6..];
      assert Common.NatToString(j) == LocalName(j)[6..];
      Common.NatToStringInjective(i, j);
    }
  }

  /** Variables saved and restored: index at least minVar, that is past the
      parameters and `this`. */
  predicate Qualifies(v: VariableNode, minVar: nat)
  {
    v.index >= minVar
  }

  /** A qualifying variable without a type: the switch in the save and
      restore helpers throws NullPointerException on it. */
  predicate Untyped(v: VariableNode, minVar: nat)
  {
    Qualifies(v, minVar) && v.varType.None?
  }

  /** Every qualifying variable has a type, so saving and restoring the
      variables throws nothing. */
  predicate TypedFrom(vars: seq<VariableNode>, minVar: nat)
  {
    forall i :: 0 <= i < |vars| && Qualifies(vars[i], minVar) ==> vars[i].varType.Some?
  }

  /** Where the ascending save loop throws: the first untyped qualifying
      variable, or |vars| when there is none. */
  function FirstUntyped(vars: seq<VariableNode>, minVar: nat): (k: nat)
    ensures k <= |vars| && TypedFrom(vars[..k], minVar)
    ensures k < |vars| ==> Untyped(vars[k], minVar)
    ensures k == |vars| <==> TypedFrom(vars, minVar)
    decreases |vars|
  {
    if vars == [] then 0
    else
      var k := FirstUntyped(vars[..|vars| - 1], minVar);
      assert TypedFrom(vars[..k], minVar) by {
        assert vars[..k] == vars[..|vars| - 1][..k];
      }
      if k < |vars| - 1 then
        assert !TypedFrom(vars, minVar) by {
          assert vars[k] == vars[..|vars| - 1][k];
        }
        k
      else if Untyped(vars[|vars| - 1], minVar) then |vars| - 1
      else
        assert TypedFrom(vars, minVar) by {
          assert forall i :: 0 <= i < |vars| - 1 ==> vars[i] == vars[..|vars| - 1][i];
        }
        |vars|
  }

  /** Where the descending restore loop throws: one past the last untyped
      qualifying variable, or 0 when there is none. */
  function LastUntyped(vars: seq<VariableNode>, minVar: nat): (k: nat)
    ensures k <= |vars| && TypedFrom(vars[k..], minVar)
    ensures k > 0 ==> Untyped(vars[k - 1], minVar)
    ensures k == 0 <==> TypedFrom(vars, minVar)
    decreases |vars|
  {
    if vars == [] then 0
    else if Untyped(vars[|vars| - 1], minVar) then
      assert vars[|vars|..] == [];
      |vars|
    else
      var init := vars[..|vars| - 1];
      var k := LastUntyped(init, minVar);
      assert TypedFrom(vars[k..], minVar) by {
        assert forall i :: 0 <= i < |init| - k ==> vars[k..][i] == init[k..][i];
      }
      assert k > 0 ==> vars[k - 1] == init[k - 1];
      assert k == 0 ==> TypedFrom(vars, minVar) by {
        if k == 0 { assert vars[0..] == vars; }
      }
      k
  }

  /** The save loop throws at i when every earlier variable is typed. */
  lemma FirstUntypedAt(vars: seq<VariableNode>, minVar: nat, i: nat)
    requires i < |vars| && TypedFrom(vars[..i], minVar) && Untyped(vars[i], minVar)
    ensures FirstUntyped(vars, minVar) == i
  {
  }

  /** The restore loop throws at i when every later variable is typed. */
  lemma LastUntypedAt(vars: seq<VariableNode>, minVar: nat, i: nat)
    requires i < |vars| && TypedFrom(vars[i + 1..], minVar) && Untyped(vars[i], minVar)
    ensures LastUntyped(vars, minVar) == i + 1
  {
  }

  function SlotOf(v: VariableNode): StackSlot
    requires v.varType.Some?
  {
    StackSlot(LocalName(v.index), v.varType.value)
  }

  /** The qualifying variables in ascending list order, as generateSaveState's loop visits them. */
  function Ascending(vars: seq<VariableNode>, minVar: nat): seq<StackSlot>
    requires TypedFrom(vars, minVar)
  {
    if vars == [] then []
    else
      var v := vars[|vars| - 1];
      Ascending(vars[..|vars| - 1], minVar) + (if Qualifies(v, minVar) then [SlotOf(v)] else [])
  }

  /** The qualifying variables in descending list order, as generateRestoreState's loop visits them. */
  function Descending(vars: seq<VariableNode>, minVar: nat): seq<StackSlot>
    requires TypedFrom(vars, minVar)
  {
    if vars == [] then []
    else
      var v := vars[|vars| - 1];
      (if Qualifies(v, minVar) then [SlotOf(v)] else []) + Descending(vars[..|vars| - 1], minVar)
  }

  const PtrSlot: StackSlot := StackSlot("ptr", Int)

  /** What generateSaveState pushes, in order: ptr, then the locals ascending. */
  function SaveOrder(vars: seq<VariableNode>, minVar: nat): seq<StackSlot>
    requires TypedFrom(vars, minVar)
  {
    [PtrSlot] + Ascending(vars, minVar)
  }

  /** What generateRestoreState pops, in order: the locals descending, then ptr. */
  function RestoreOrder(vars: seq<VariableNode>, minVar: nat): seq<StackSlot>
    requires TypedFrom(vars, minVar)
  {
    Descending(vars, minVar) + [PtrSlot]
  }

  function Reverse<T>(s: seq<T>): (r: seq<T>)
    ensures |r| == |s|
  {
    if s == [] then [] else [s[|s| - 1]] + Reverse(s[..|s| - 1])
  }

  lemma {:induction false} ReverseAppend<T>(a: seq<T>, b: seq<T>)
    ensures Reverse(a + b) == Reverse(b) + Reverse(a)
    decreases |b|
  {
    if b == [] {
      assert a + b == a;
    } else {
      var b' := b[..|b| - 1];
      assert (a + b)[..|a + b| - 1] == a + b';
      assert (a + b)[|a + b| - 1] == b[|b| - 1];
      ReverseAppend(a, b');
    }
  }

  lemma {:induction false} DescendingIsReversedAscending(vars: seq<VariableNode>, minVar: nat)
    requires TypedFrom(vars, minVar)
    ensures Descending(vars, minVar) == Reverse(Ascending(vars, minVar))
    decreases |vars|
  {
    if vars != [] {
      var init := vars[..|vars| - 1];
      var v := vars[|vars| - 1];
      var last := if Qualifies(v, minVar) then [SlotOf(v)] else [];
      DescendingIsReversedAscending(init, minVar);
      ReverseAppend(Ascending(init, minVar), last);
      assert Reverse(last) == last;
    }
  }

  /** Stack discipline: the restore pops exactly the reverse of what the
      save pushed, each slot with the same type. */
  lemma RestoreReversesSave(vars: seq<VariableNode>, minVar: nat)
    requires TypedFrom(vars, minVar)
    ensures RestoreOrder(vars, minVar) == Reverse(SaveOrder(vars, minVar))
  {
    DescendingIsReversedAscending(vars, minVar);
    ReverseAppend([PtrSlot], Ascending(vars, minVar));
    assert Reverse([PtrSlot]) == [PtrSlot];
  }

  /** Exactly the qualifying variables are saved: every slot but ptr is a
      qualifying variable, and every qualifying variable is saved. */
  lemma {:induction false} AscendingExactlyQualifying(vars: seq<VariableNode>, minVar: nat)
    requires TypedFrom(vars, minVar)
    ensures forall s :: s in Ascending(vars, minVar) <==>
              exists i :: 0 <= i < |vars| && Qualifies(vars[i], minVar) && s == SlotOf(vars[i])
    decreases |vars|
  {
    if vars != [] {
      var init := vars[..|vars| - 1];
      AscendingExactlyQualifying(init, minVar);
      forall s | s in Ascending(vars, minVar)
        ensures exists i :: 0 <= i < |vars| && Qualifies(vars[i], minVar) && s == SlotOf(vars[i])
      {
        if s in Ascending(init, minVar) {
          var i :| 0 <= i < |init| && Qualifies(init[i], minVar) && s == SlotOf(init[i]);
          assert vars[i] == init[i];
        } else {
          assert s == SlotOf(vars[|vars| - 1]);
        }
      }
      forall i | 0 <= i < |vars| && Qualifies(vars[i], minVar)
        ensures SlotOf(vars[i]) in Ascending(vars, minVar)
      {
        if i < |init| {
          assert init[i] == vars[i];
        }
      }
    }
  }

  /** A fixed-size view of the writer's text: the fragments in print order
      and the indentation level (the layout itself is the writer's). */
  class CodeWriter {
    var output: seq<string>
    var indentation: int

    constructor ()
      ensures output == [] && indentation == 0
    {
      output := [];
      indentation := 0;
    }

    method Print(s: string)
      modifies this
      ensures output == old(output) + [s] && indentation == old(indentation)
    {
      output := output + [s];
    }

    method Println(s: string)
      modifies this
      ensures output == old(output) + [s, "\n"] && indentation == old(indentation)
    {
      output := output + [s, "\n"];
    }

    method Indent()
      modifies this
      ensures output == old(output) && indentation == old(indentation) + 1
    {
      indentation := indentation + 1;
    }

    method Outdent()
      modifies this
      ensures output == old(output) && indentation == old(indentation) - 1
    {
      indentation := indentation - 1;
    }
  }

  /** A line printed with println: the text and the line break. */
  function Line(s: string): seq<string>
  {
    [s, "\n"]
  }

  lemma ConcatSingle(x: string)
    ensures Common.Concat([x]) == x
  {
    assert [x][..0] == [];
  }

  lemma ConcatSnoc(p: seq<string>, x: string)
    ensures Common.Concat(p + [x]) == Common.Concat(p) + x
  {
    assert (p + [x])[..|p|] == p;
  }

  lemma ConcatEnclosed(open: string, middle: seq<string>, close: string)
    ensures Common.Concat([open] + middle + [close]) == open + Common.Concat(middle) + close
  {
    Common.ConcatAppend([open], middle);
    ConcatSingle(open);
    ConcatSnoc([open] + middle, close);
  }

  /** One parameter: its C type, and its name when names are wanted. */
  function ParameterItem(typeText: Common.ValueType -> string, params: seq<Common.ValueType>, i: nat, withNames: bool): string
    requires i < |params|
  {
    typeText(params[i]) + (if withNames then " " + LocalName(i + 1) else "")
  }

  /** The reference definition of a parameter list: `void* _this_` for an
      instance method, then parameter i as `type local_{i+1}`, separated by ", ". */
  function ParameterItems(typeText: Common.ValueType -> string, params: seq<Common.ValueType>, isStatic: bool, withNames: bool)
    : (items: seq<string>)
    ensures |items| == |params| + (if isStatic then 0 else 1)
  {
    (if isStatic then [] else ["void*" + (if withNames then " _this_" else "")])
    + seq(|params|, i requires 0 <= i < |params| => ParameterItem(typeText, params, i, withNames))
  }

  function ParameterList(typeText: Common.ValueType -> string, params: seq<Common.ValueType>, isStatic: bool, withNames: bool): string
  {
    Common.Join(ParameterItems(typeText, params, isStatic, withNames), ", ")
  }

  lemma JoinSnoc(items: seq<string>, x: string, sep: string)
    requires items != []
    ensures Common.Join(items + [x], sep) == Common.Join(items, sep) + sep + x
  {
    assert (items + [x])[..|items|] == items;
  }

  /** Item i + 1 of the list, past `this`, is parameter i. */
  lemma ParameterItemAt(typeText: Common.ValueType -> string, params: seq<Common.ValueType>, isStatic: bool, withNames: bool, i: nat)
    requires i < |params|
    ensures ParameterItems(typeText, params, isStatic, withNames)[i + (if isStatic then 0 else 1)]
            == ParameterItem(typeText, params, i, withNames)
  {
  }

  /** A static method without parameters has an empty list; otherwise the
      list has one item per parameter, plus `this` for an instance method. */
  lemma ParameterListShape(typeText: Common.ValueType -> string, params: seq<Common.ValueType>, isStatic: bool, withNames: bool)
    ensures isStatic && params == [] ==> ParameterList(typeText, params, isStatic, withNames) == ""
    ensures !isStatic ==> ParameterItems(typeText, params, isStatic, withNames)[0] == (if withNames then "void* _this_" else "void*")
    ensures forall i :: 0 <= i < |params| ==>
              ParameterItems(typeText, params, isStatic, withNames)[i + (if isStatic then 0 else 1)]
              == typeText(params[i]) + (if withNames then " local_" + Common.NatToString(i + 1) else "")
  {
  }

  /** The C text of a variable type, as CodeWriter.printType prints it. */
  type TypeText = VariableType -> string

  /** A local declaration of generateLocals: the variable's list index and its type. */
  function LocalDeclarations(vars: seq<VariableNode>, start: nat, end: nat): (decls: seq<(nat, VariableType)>)
    requires end <= |vars|
    decreases end
  {
    if end <= start then []
    else
      var v := vars[end - 1];
      LocalDeclarations(vars, start, end - 1) + (if v.varType.Some? then [(end - 1, v.varType.value)] else [])
  }

  /** generateLocals declares exactly the typed variables from index start
      on, in ascending order. */
  lemma {:induction false} LocalDeclarationsExact(vars: seq<VariableNode>, start: nat, end: nat)
    requires end <= |vars|
    ensures forall i, t :: (i, t) in LocalDeclarations(vars, start, end) <==>
              start <= i < end && vars[i].varType == Common.Some(t)
    ensures forall a, b :: 0 <= a < b < |LocalDeclarations(vars, start, end)| ==>
              LocalDeclarations(vars, start, end)[a].0 < LocalDeclarations(vars, start, end)[b].0
    ensures forall a :: 0 <= a < |LocalDeclarations(vars, start, end)| ==>
              start <= LocalDeclarations(vars, start, end)[a].0 < end
    decreases end
  {
    if end > start {
      LocalDeclarationsExact(vars, start, end - 1);
    }
  }

  function LocalFragments(variableTypeText: TypeText, decl: (nat, VariableType)): seq<string>
  {
    [variableTypeText(decl.1), " local_", Common.NatToString(decl.0), ";", "\n"]
  }

  function LocalsFragments(variableTypeText: TypeText, decls: seq<(nat, VariableType)>): seq<string>
  {
    if decls == [] then []
    else LocalsFragments(variableTypeText, decls[..|decls| - 1]) + LocalFragments(variableTypeText, decls[|decls| - 1])
  }

  lemma LocalsFragmentsSnoc(variableTypeText: TypeText, decls: seq<(nat, VariableType)>, d: (nat, VariableType))
    ensures LocalsFragments(variableTypeText, decls + [d]) == LocalsFragments(variableTypeText, decls) + LocalFragments(variableTypeText, d)
  {
    assert (decls + [d])[..|decls|] == decls;
  }

  /** The temporaries: for each C variable type in order, tmp_<name>_0 up to
      its count. */
  function TemporaryFragments(cTypes: seq<CVariableType>, counts: seq<nat>, k: nat): seq<string>
    requires k <= |cTypes| <= |counts|
    decreases k
  {
    if k == 0 then []
    else TemporaryFragments(cTypes, counts, k - 1) + TemporariesOf(cTypes[k - 1], counts[k - 1])
  }

  function TemporariesOf(t: CVariableType, count: nat): (r: seq<string>)
    ensures |r| == 3 * count
    decreases count
  {
    if count == 0 then []
    else TemporariesOf(t, count - 1) + [TemporaryName(t, count - 1), ";", "\n"]
  }

  function TemporaryName(t: CVariableType, i: nat): string
  {
    t.text + " tmp_" + t.lowerName + "_" + Common.NatToString(i)
  }

  /** Each C variable type gets exactly its count of temporaries, numbered
      from 0 in order. */
  lemma {:induction false} TemporariesOfNumbered(t: CVariableType, count: nat)
    ensures forall i :: 0 <= i < count ==> TemporariesOf(t, count)[3 * i] == TemporaryName(t, i)
    decreases count
  {
    if count > 0 {
      var prev := TemporariesOf(t, count - 1);
      var all := TemporariesOf(t, count);
      TemporariesOfNumbered(t, count - 1);
      assert all == prev + [TemporaryName(t, count - 1), ";", "\n"];
      forall i | 0 <= i < count
        ensures all[3 * i] == TemporaryName(t, i)
      {
        if i < count - 1 {
          assert 3 * i < |prev| && all[3 * i] == prev[3 * i];
        } else {
          assert 3 * i == |prev|;
        }
      }
    }
  }

  function CaseLabel(i: nat): string
  {
    "case " + Common.NatToString(i) + ":;"
  }

  /** The state machine over the async parts: for part i, the line
      `case i:;` followed by what the part's statement prints. */
  function StateMachine(parts: seq<seq<string>>): seq<string>
  {
    if parts == [] then []
    else StateMachine(parts[..|parts| - 1]) + Line(CaseLabel(|parts| - 1)) + parts[|parts| - 1]
  }

  /** Part i's label sits right after the text of parts 0..i-1 and is
      `case i:;`: one label per part, in the order 0..n-1. */
  lemma {:induction false} CaseLabelsInOrder(parts: seq<seq<string>>, i: nat)
    requires i < |parts|
    ensures |StateMachine(parts[..i])| < |StateMachine(parts)|
    ensures StateMachine(parts)[|StateMachine(parts[..i])|] == CaseLabel(i)
    ensures StateMachine(parts)[..|StateMachine(parts[..i])|] == StateMachine(parts[..i])
    decreases |parts|
  {
    var n := |parts|;
    var init := parts[..n - 1];
    if i == n - 1 {
      assert parts[..i] == init;
    } else {
      CaseLabelsInOrder(init, i);
      assert init[..i] == parts[..i];
    }
  }

  function SaveFragments(names: Common.MethodRef -> string, slots: seq<StackSlot>): seq<string>
  {
    if slots == [] then []
    else
      var s := slots[|slots| - 1];
      SaveFragments(names, slots[..|slots| - 1]) + Line(names(PushMethod(s.slotType)) + "(fiber, " + s.name + ");")
  }

  function RestoreFragments(names: Common.MethodRef -> string, slots: seq<StackSlot>): seq<string>
  {
    if slots == [] then []
    else
      var s := slots[|slots| - 1];
      RestoreFragments(names, slots[..|slots| - 1]) + Line(s.name + " = " + names(PopMethod(s.slotType)) + "(fiber);")
  }

  lemma SaveFragmentsSnoc(names: Common.MethodRef -> string, slots: seq<StackSlot>, s: StackSlot)
    ensures SaveFragments(names, slots + [s]) == SaveFragments(names, slots) + Line(names(PushMethod(s.slotType)) + "(fiber, " + s.name + ");")
  {
    assert (slots + [s])[..|slots|] == slots;
  }

  lemma RestoreFragmentsSnoc(names: Common.MethodRef -> string, slots: seq<StackSlot>, s: StackSlot)
    ensures RestoreFragments(names, slots + [s]) == RestoreFragments(names, slots) + Line(s.name + " = " + names(PopMethod(s.slotType)) + "(fiber);")
  {
    assert (slots + [s])[..|slots|] == slots;
  }

  const IsResumingMethod: Common.MethodRef :=
    Common.MethodRef(FiberClass, Common.MethodDescriptor("isResuming", [Common.Primitive(Common.Boolean)]))
  const CurrentFiberMethod: Common.MethodRef :=
    Common.MethodRef(FiberClass, Common.MethodDescriptor("current", [Common.Object(FiberClass)]))

  /** The line opening the restore block. */
  function ResumeTest(names: Common.MethodRef -> string): string
  {
    "if (" + names(IsResumingMethod) + "(fiber)) {"
  }

  function RestoreStateText(names: Common.MethodRef -> string, vars: seq<VariableNode>, minVar: nat): seq<string>
    requires TypedFrom(vars, minVar)
  {
    Line(ResumeTest(names)) + RestoreFragments(names, RestoreOrder(vars, minVar)) + Line("}")
  }

  /** What generateRestoreState has printed when it throws: the opening
      line and the pops of the locals above the untyped one. */
  function RestoreStateThrownText(names: Common.MethodRef -> string, vars: seq<VariableNode>, minVar: nat): seq<string>
  {
    Line(ResumeTest(names)) + RestoreFragments(names, Descending(vars[LastUntyped(vars, minVar)..], minVar))
  }

  function AsyncPrologue(): seq<string>
  {
    Line("while (1) {") + Line("switch (ptr) {")
  }

  function AsyncEpilogue(): seq<string>
  {
    Line("}") + Line("next_state:;") + Line("}") + Line("exit_loop:")
  }

  class Generator {
    const writer: CodeWriter
    /** Unset (null) until generateMethod opens the locals fragment. */
    var localsWriter: CodeWriter?
    /** NameProvider.forMethod. */
    const names: Common.MethodRef -> string
    /** CodeWriter.printType for value types. */
    const typeText: Common.ValueType -> string
    /** CodeWriter.printType for variable types. */
    const variableTypeText: TypeText

    constructor (writer: CodeWriter, names: Common.MethodRef -> string,
                 typeText: Common.ValueType -> string, variableTypeText: TypeText)
      ensures this.writer == writer && localsWriter == null
      ensures this.names == names && this.typeText == typeText && this.variableTypeText == variableTypeText
    {
      this.writer := writer;
      this.localsWriter := null;
      this.names := names;
      this.typeText := typeText;
      this.variableTypeText := variableTypeText;
    }

    /** The fragments generateMethodParameters prints for the first item. */
    function HeadFragments(params: seq<Common.ValueType>, isStatic: bool, withNames: bool): seq<string>
      requires isStatic ==> |params| > 0
    {
      if !isStatic then ["void*"] + (if withNames then [" _this_"] else [])
      else [typeText(params[0])] + (if withNames then [" local_1"] else [])
    }

    /** The fragments generateMethodParameters prints for parameter i past the first item. */
    function TailFragments(params: seq<Common.ValueType>, i: nat, withNames: bool): seq<string>
      requires i < |params|
    {
      [", ", typeText(params[i])] + (if withNames then [" ", "local_", Common.NatToString(i + 1)] else [])
    }

    lemma HeadFragmentsText(params: seq<Common.ValueType>, isStatic: bool, withNames: bool)
      requires isStatic ==> |params| > 0
      ensures Common.Concat(HeadFragments(params, isStatic, withNames)) == ParameterItems(typeText, params, isStatic, withNames)[0]
    {
      var h := HeadFragments(params, isStatic, withNames);
      ConcatSingle(h[0]);
      if withNames {
        assert h == [h[0]] + [h[1]];
        ConcatSnoc([h[0]], h[1]);
        assert Common.NatToString(1) == "1";
      } else {
        assert h == [h[0]];
      }
    }

    lemma TailFragmentsText(params: seq<Common.ValueType>, i: nat, withNames: bool)
      requires i < |params|
      ensures Common.Concat(TailFragments(params, i, withNames)) == ", " + ParameterItem(typeText, params, i, withNames)
    {
      var t := typeText(params[i]);
      ConcatSingle(", ");
      ConcatSnoc([", "], t);
      assert [", "] + [t] == [", ", t];
      if withNames {
        var n := Common.NatToString(i + 1);
        assert TailFragments(params, i, withNames) == [", ", t] + [" "] + ["local_"] + [n];
        ConcatSnoc([", ", t], " ");
        ConcatSnoc([", ", t] + [" "], "local_");
        ConcatSnoc([", ", t] + [" "] + ["local_"], n);
        assert Common.Concat(TailFragments(params, i, withNames)) == ", " + t + " " + "local_" + n;
        assert ParameterItem(typeText, params, i, withNames) == t + " " + ("local_" + n);
        assert ", " + t + " " + "local_" + n == ", " + (t + " " + ("local_" + n));
      } else {
        assert TailFragments(params, i, withNames) == [", "] + [t];
      }
    }

    lemma ParameterStep(printed: seq<string>, tail: seq<string>, params: seq<Common.ValueType>, isStatic: bool, withNames: bool, i: nat)
      requires i < |params| && (isStatic ==> i >= 1)
      requires tail == TailFragments(params, i, withNames)
      requires var offset := if isStatic then 0 else 1;
               Common.Concat(printed) == Common.Join(ParameterItems(typeText, params, isStatic, withNames)[..i + offset], ", ")
      ensures var offset := if isStatic then 0 else 1;
              Common.Concat(printed + tail) == Common.Join(ParameterItems(typeText, params, isStatic, withNames)[..i + 1 + offset], ", ")
    {
      var offset := if isStatic then 0 else 1;
      var items := ParameterItems(typeText, params, isStatic, withNames);
      var item := ParameterItem(typeText, params, i, withNames);
      Common.ConcatAppend(printed, tail);
      TailFragmentsText(params, i, withNames);
      ParameterItemAt(typeText, params, isStatic, withNames, i);
      Common.TakeSnoc(items, i + offset);
      var prefix := items[..i + offset];
      JoinSnoc(prefix, item, ", ");
      Common.AppendAssociative(Common.Join(prefix, ", "), ", ", item);
    }

    /** The first item: `void*` (with ` _this_`) for an instance method, the
        first parameter (with ` local_1`) for a static one. */
    method PrintHead(w: CodeWriter, params: seq<Common.ValueType>, isStatic: bool, withNames: bool)
      requires isStatic ==> |params| > 0
      modifies w
      ensures w.output == old(w.output) + HeadFragments(params, isStatic, withNames) && w.indentation == old(w.indentation)
    {
      if !isStatic {
        w.Print("void*");
        if withNames {
          w.Print(" _this_");
        }
      } else {
        w.Print(typeText(params[0]));
        if withNames {
          w.Print(" local_1");
        }
      }
    }

    /** One later parameter: `, type` and, with names, ` local_{i+1}`. */
    method PrintTail(w: CodeWriter, params: seq<Common.ValueType>, i: nat, withNames: bool)
      requires i < |params|
      modifies w
      ensures w.output == old(w.output) + TailFragments(params, i, withNames) && w.indentation == old(w.indentation)
    {
      w.Print(", ");
      w.Print(typeText(params[i]));
      if withNames {
        w.Print(" ");
        w.Print("local_");
        w.Print(Common.NatToString(i + 1));
      }
    }

    /** generateMethodParameters: the printed text is the reference list. */
    method GenerateMethodParameters(w: CodeWriter, params: seq<Common.ValueType>, isStatic: bool, withNames: bool)
      modifies w
      ensures |w.output| >= |old(w.output)| && w.output[..|old(w.output)|] == old(w.output)
      ensures Common.Concat(w.output[|old(w.output)|..]) == ParameterList(typeText, params, isStatic, withNames)
      ensures w.indentation == old(w.indentation)
    {
      ghost var before := w.output;
      ghost var items := ParameterItems(typeText, params, isStatic, withNames);
      if |params| == 0 && isStatic {
        assert w.output[|before|..] == [];
        return;
      }
      PrintHead(w, params, isStatic, withNames);
      ghost var printed := HeadFragments(params, isStatic, withNames);
      HeadFragmentsText(params, isStatic, withNames);
      var start := if isStatic then 1 else 0;
      ghost var offset := if isStatic then 0 else 1;
      assert items[..start + offset] == [items[0]];
      for i := start to |params|
        invariant w.output == before + printed
        invariant w.indentation == old(w.indentation)
        invariant Common.Concat(printed) == Common.Join(items[..i + offset], ", ")
      {
        PrintTail(w, params, i, withNames);
        ghost var tail := TailFragments(params, i, withNames);
        ParameterStep(printed, tail, params, isStatic, withNames, i);
        Common.AppendAssociative(before, printed, tail);
        printed := printed + tail;
      }
      assert items[..|params| + offset] == items;
      assert w.output[|before|..] == printed;
    }

    /** generateMethodSignature. */
    method GenerateMethodSignature(w: CodeWriter, methodRef: Common.MethodRef, isStatic: bool, withNames: bool)
      requires |methodRef.desc.signature| >= 1
      modifies w
      ensures var params := methodRef.desc.signature[..|methodRef.desc.signature| - 1];
              var result := methodRef.desc.signature[|methodRef.desc.signature| - 1];
              && |w.output| >= |old(w.output)| + 4
              && w.output[..|old(w.output)| + 4] == old(w.output) + ["static ", typeText(result), " ", names(methodRef)]
              && Common.Concat(w.output[|old(w.output)| + 4..]) == "(" + ParameterList(typeText, params, isStatic, withNames) + ")"
      ensures w.indentation == old(w.indentation)
    {
      var sig := methodRef.desc.signature;
      w.Print("static ");
      w.Print(typeText(sig[|sig| - 1]));
      w.Print(" ");
      w.Print(names(methodRef));
      w.Print("(");
      ghost var mid := w.output;
      GenerateMethodParameters(w, sig[..|sig| - 1], isStatic, withNames);
      ghost var paramsText := w.output[|mid|..];
      assert w.output == old(w.output) + ["static ", typeText(sig[|sig| - 1]), " ", names(methodRef)] + ["("] + paramsText;
      w.Print(")");
      ConcatEnclosed("(", paramsText, ")");
      assert w.output[|old(w.output)| + 4..] == ["("] + paramsText + [")"];
    }

    /** generateLocals: the typed locals from parameterCount + 1 on, then
        the temporaries of each C variable type. */
    method GenerateLocals(vars: seq<VariableNode>, parameterCount: nat, temporaryCount: seq<nat>, cTypes: seq<CVariableType>)
      requires localsWriter != null && |cTypes| <= |temporaryCount|
      modifies localsWriter
      ensures localsWriter.output == old(localsWriter.output)
              + LocalsFragments(variableTypeText, LocalDeclarations(vars, parameterCount + 1, |vars|))
              + TemporaryFragments(cTypes, temporaryCount, |cTypes|)
      ensures localsWriter.indentation == old(localsWriter.indentation)
    {
      GenerateLocalDeclarations(localsWriter, vars, parameterCount + 1);
      GenerateTemporaries(localsWriter, temporaryCount, cTypes);
    }

    /** The first loop of generateLocals. */
    method GenerateLocalDeclarations(w: CodeWriter, vars: seq<VariableNode>, start: nat)
      modifies w
      ensures w.output == old(w.output) + LocalsFragments(variableTypeText, LocalDeclarations(vars, start, |vars|))
      ensures w.indentation == old(w.indentation)
    {
      if start >= |vars| {
        assert LocalDeclarations(vars, start, |vars|) == [];
        return;
      }
      ghost var decls: seq<(nat, VariableType)> := [];
      for i := start to |vars|
        invariant decls == LocalDeclarations(vars, start, i)
        invariant w.output == old(w.output) + LocalsFragments(variableTypeText, decls)
        invariant w.indentation == old(w.indentation)
      {
        var v := vars[i];
        if v.varType.Some? {
          PrintLocal(w, v.varType.value, i);
          LocalsFragmentsSnoc(variableTypeText, decls, (i, v.varType.value));
          decls := decls + [(i, v.varType.value)];
        }
      }
    }

    method PrintLocal(w: CodeWriter, t: VariableType, i: nat)
      modifies w
      ensures w.output == old(w.output) + LocalFragments(variableTypeText, (i, t))
      ensures w.indentation == old(w.indentation)
    {
      w.Print(variableTypeText(t));
      w.Print(" local_");
      w.Print(Common.NatToString(i));
      w.Println(";");
    }

    /** The second loop of generateLocals. */
    method GenerateTemporaries(w: CodeWriter, temporaryCount: seq<nat>, cTypes: seq<CVariableType>)
      requires |cTypes| <= |temporaryCount|
      modifies w
      ensures w.output == old(w.output) + TemporaryFragments(cTypes, temporaryCount, |cTypes|)
      ensures w.indentation == old(w.indentation)
    {
      for k := 0 to |cTypes|
        invariant w.output == old(w.output) + TemporaryFragments(cTypes, temporaryCount, k)
        invariant w.indentation == old(w.indentation)
      {
        ghost var done := TemporaryFragments(cTypes, temporaryCount, k);
        PrintTemporaries(w, cTypes[k], temporaryCount[k]);
        Common.AppendAssociative(old(w.output), done, TemporariesOf(cTypes[k], temporaryCount[k]));
      }
    }

    method PrintTemporaries(w: CodeWriter, t: CVariableType, count: nat)
      modifies w
      ensures w.output == old(w.output) + TemporariesOf(t, count)
      ensures w.indentation == old(w.indentation)
    {
      for i := 0 to count
        invariant w.output == old(w.output) + TemporariesOf(t, i)
        invariant w.indentation == old(w.indentation)
      {
        ghost var mid := w.output;
        var name := t.text + " tmp_" + t.lowerName + "_" + Common.NatToString(i);
        w.Print(name);
        w.Println(";");
        assert w.output == mid + [name, ";", "\n"];
        assert name == TemporaryName(t, i);
      }
    }

    /** renderStateMachine: one `case i:;` per part, each part's text
        indented below it. */
    method RenderStateMachine(parts: seq<seq<string>>)
      modifies writer
      ensures writer.output == old(writer.output) + StateMachine(parts)
      ensures writer.indentation == old(writer.indentation)
    {
      for i := 0 to |parts|
        invariant writer.output == old(writer.output) + StateMachine(parts[..i])
        invariant writer.indentation == old(writer.indentation)
      {
        writer.Println("case " + Common.NatToString(i) + ":;");
        writer.Indent();
        EmitPart(parts[i]);
        writer.Outdent();
        assert parts[..i + 1][..i] == parts[..i];
      }
      assert parts[..|parts|] == parts;
    }

    /** What a part's statement prints through the code generation visitor. */
    method EmitPart(text: seq<string>)
      modifies writer
      ensures writer.output == old(writer.output) + text
      ensures writer.indentation == old(writer.indentation)
    {
      for i := 0 to |text|
        invariant writer.output == old(writer.output) + text[..i]
        invariant writer.indentation == old(writer.indentation)
      {
        writer.Print(text[i]);
        assert text[..i + 1] == text[..i] + [text[i]];
      }
      assert text[..|text|] == text;
    }

    /** generateSaveVariable; a null type makes the switch throw before
        anything is printed. */
    method GenerateSaveVariable(name: string, t: Common.Option<VariableType>) returns (thrown: bool)
      modifies writer
      ensures thrown <==> t.None?
      ensures thrown ==> writer.output == old(writer.output)
      ensures !thrown ==> writer.output == old(writer.output) + Line(names(PushMethod(t.value)) + "(fiber, " + name + ");")
      ensures writer.indentation == old(writer.indentation)
    {
      if t.None? {
        return true;
      }
      thrown := false;
      var m := match t.value
        case Int => Common.MethodRef(FiberClass, Common.MethodDescriptor("push", [Common.Primitive(Common.Int), Common.Void]))
        case Long => Common.MethodRef(FiberClass, Common.MethodDescriptor("push", [Common.Primitive(Common.Long), Common.Void]))
        case Float => Common.MethodRef(FiberClass, Common.MethodDescriptor("push", [Common.Primitive(Common.Float), Common.Void]))
        case Double => Common.MethodRef(FiberClass, Common.MethodDescriptor("push", [Common.Primitive(Common.Double), Common.Void]))
        case _ => Common.MethodRef(FiberClass, Common.MethodDescriptor("push", [Common.Object(Common.ObjectClass), Common.Void]));
      writer.Println(names(m) + "(fiber, " + name + ");");
    }

    /** generateRestoreVariable; a null type makes the switch throw before
        anything is printed. */
    method GenerateRestoreVariable(name: string, t: Common.Option<VariableType>) returns (thrown: bool)
      modifies writer
      ensures thrown <==> t.None?
      ensures thrown ==> writer.output == old(writer.output)
      ensures !thrown ==> writer.output == old(writer.output) + Line(name + " = " + names(PopMethod(t.value)) + "(fiber);")
      ensures writer.indentation == old(writer.indentation)
    {
      if t.None? {
        return true;
      }
      thrown := false;
      var m := match t.value
        case Int => Common.MethodRef(FiberClass, Common.MethodDescriptor("popInt", [Common.Primitive(Common.Int)]))
        case Long => Common.MethodRef(FiberClass, Common.MethodDescriptor("popLong", [Common.Primitive(Common.Long)]))
        case Float => Common.MethodRef(FiberClass, Common.MethodDescriptor("popFloat", [Common.Primitive(Common.Float)]))
        case Double => Common.MethodRef(FiberClass, Common.MethodDescriptor("popDouble", [Common.Primitive(Common.Double)]))
        case _ => Common.MethodRef(FiberClass, Common.MethodDescriptor("popObject", [Common.Object(Common.ObjectClass)]));
      writer.Println(name + " = " + names(m) + "(fiber);");
    }

    /** generateSaveState: push ptr, then the qualifying locals ascending.
        It throws at the first untyped qualifying variable, having pushed
        what came before it. */
    method GenerateSaveState(vars: seq<VariableNode>, parameterCount: nat) returns (thrown: bool)
      modifies writer
      ensures thrown <==> !TypedFrom(vars, parameterCount + 1)
      ensures writer.output == old(writer.output)
              + SaveFragments(names, [PtrSlot] + Ascending(vars[..FirstUntyped(vars, parameterCount + 1)], parameterCount + 1))
      ensures !thrown ==> writer.output == old(writer.output) + SaveFragments(names, SaveOrder(vars, parameterCount + 1))
      ensures writer.indentation == old(writer.indentation)
    {
      var minVar := parameterCount + 1;
      thrown := GenerateSaveVariable("ptr", Common.Some(Int));
      SaveFragmentsSnoc(names, [], PtrSlot);
      assert [] + [PtrSlot] == [PtrSlot];
      assert vars[..0] == [];
      ghost var pushed := [PtrSlot];
      for i := 0 to |vars|
        invariant TypedFrom(vars[..i], minVar) && !thrown
        invariant pushed == [PtrSlot] + Ascending(vars[..i], minVar)
        invariant writer.output == old(writer.output) + SaveFragments(names, pushed)
        invariant writer.indentation == old(writer.indentation)
      {
        var v := vars[i];
        if v.index >= minVar {
          thrown := GenerateSaveVariable(LocalName(v.index), v.varType);
          if thrown {
            FirstUntypedAt(vars, minVar, i);
            return;
          }
          AscendingSnoc(vars, i, minVar);
          ghost var slot := SlotOf(v);
          SaveFragmentsSnoc(names, pushed, slot);
          Common.AppendAssociative(old(writer.output), SaveFragments(names, pushed),
                            Line(names(PushMethod(slot.slotType)) + "(fiber, " + slot.name + ");"));
          Common.AppendAssociative([PtrSlot], Ascending(vars[..i], minVar), [slot]);
          pushed := pushed + [slot];
        } else {
          AscendingSnoc(vars, i, minVar);
          assert Ascending(vars[..i + 1], minVar) == Ascending(vars[..i], minVar);
        }
      }
      assert vars[..|vars|] == vars;
    }

    /** generateRestoreState: when resuming, pop the qualifying locals
        descending, then ptr.  When a local is untyped it throws inside the
        block, one level deeper, before ptr and the closing brace. */
    method GenerateRestoreState(vars: seq<VariableNode>, parameterCount: nat) returns (thrown: bool)
      modifies writer
      ensures thrown <==> !TypedFrom(vars, parameterCount + 1)
      ensures thrown ==> writer.output == old(writer.output) + RestoreStateThrownText(names, vars, parameterCount + 1)
                         && writer.indentation == old(writer.indentation) + 1
      ensures !thrown ==> writer.output == old(writer.output) + RestoreStateText(names, vars, parameterCount + 1)
                          && writer.indentation == old(writer.indentation)
    {
      var minVar := parameterCount + 1;
      var header := "if (" + names(IsResumingMethod) + "(fiber)) {";
      writer.Println(header);
      writer.Indent();
      ghost var w1 := writer.output;
      thrown := RestoreLocals(vars, minVar);
      if thrown {
        Common.AppendAssociative(old(writer.output), Line(header),
                                 RestoreFragments(names, Descending(vars[LastUntyped(vars, minVar)..], minVar)));
        return;
      }
      thrown := GenerateRestoreVariable("ptr", Common.Some(Int));
      ghost var locals := RestoreFragments(names, Descending(vars, minVar));
      ghost var ptrLine := Line(PtrSlot.name + " = " + names(PopMethod(Int)) + "(fiber);");
      RestoreFragmentsSnoc(names, Descending(vars, minVar), PtrSlot);
      ghost var body := RestoreFragments(names, RestoreOrder(vars, minVar));
      Common.AppendAssociative(w1, locals, ptrLine);
      Common.AppendAssociative(old(writer.output), Line(header), body);
      writer.Outdent();
      writer.Println("}");
      Common.AppendAssociative(old(writer.output), Line(header) + body, Line("}"));
    }

    /** The descending loop of generateRestoreState.  It throws at the last
        untyped qualifying variable, having popped what came after it. */
    method RestoreLocals(vars: seq<VariableNode>, minVar: nat) returns (thrown: bool)
      modifies writer
      ensures thrown <==> !TypedFrom(vars, minVar)
      ensures writer.output == old(writer.output) + RestoreFragments(names, Descending(vars[LastUntyped(vars, minVar)..], minVar))
      ensures !thrown ==> writer.output == old(writer.output) + RestoreFragments(names, Descending(vars, minVar))
      ensures writer.indentation == old(writer.indentation)
    {
      var i := |vars|;
      assert vars[|vars|..] == [];
      ghost var popped: seq<StackSlot> := [];
      thrown := false;
      while i > 0
        invariant 0 <= i <= |vars| && !thrown
        invariant TypedFrom(vars[i..], minVar)
        invariant popped == Descending(vars[i..], minVar)
        invariant writer.output == old(writer.output) + RestoreFragments(names, popped)
        invariant writer.indentation == old(writer.indentation)
        decreases i
      {
        i := i - 1;
        var v := vars[i];
        if v.index >= minVar {
          thrown := GenerateRestoreVariable(LocalName(v.index), v.varType);
          if thrown {
            LastUntypedAt(vars, minVar, i);
            return;
          }
          DescendingPrepend(vars, i, minVar);
          ghost var slot := SlotOf(v);
          RestoreFragmentsSnoc(names, popped, slot);
          Common.AppendAssociative(old(writer.output), RestoreFragments(names, popped),
                            Line(slot.name + " = " + names(PopMethod(slot.slotType)) + "(fiber);"));
          popped := popped + [slot];
        } else {
          DescendingPrepend(vars, i, minVar);
        }
      }
      assert vars[0..] == vars;
    }

    /** Line 50 of generateMethod: the locals go to a new fragment of the
        writer, which the method's text later holds at that point. */
    method OpenLocals()
      modifies this
      ensures fresh(localsWriter) && localsWriter.output == []
    {
      localsWriter := new CodeWriter();
    }

    /** The async method body around the parts: the two locals it needs,
        the restore, the loop and switch, the parts, and the save.  An
        untyped local makes the restore throw, and nothing after it runs. */
    method GenerateAsyncMethodBody(vars: seq<VariableNode>, parameterCount: nat, parts: seq<seq<string>>)
      returns (thrown: bool)
      requires localsWriter != null && localsWriter != writer
      modifies writer, localsWriter
      ensures localsWriter == old(localsWriter)
      ensures localsWriter.output == old(localsWriter.output)
              + Line("int32_t ptr = 0;") + Line("void* fiber = " + names(CurrentFiberMethod) + "();")
      ensures thrown <==> !TypedFrom(vars, parameterCount + 1)
      ensures thrown ==> writer.output == old(writer.output) + RestoreStateThrownText(names, vars, parameterCount + 1)
                         && writer.indentation == old(writer.indentation) + 1
      ensures !thrown ==> writer.output == old(writer.output) + RestoreStateText(names, vars, parameterCount + 1)
                          + AsyncPrologue() + StateMachine(parts) + AsyncEpilogue()
                          + SaveFragments(names, SaveOrder(vars, parameterCount + 1))
                          && writer.indentation == old(writer.indentation)
    {
      localsWriter.Println("int32_t ptr = 0;");
      localsWriter.Println("void* fiber = " + names(CurrentFiberMethod) + "();");
      thrown := GenerateRestoreState(vars, parameterCount);
      if thrown {
        return;
      }
      RenderAsyncPrologue();
      RenderStateMachine(parts);
      RenderAsyncEpilogue();
      thrown := GenerateSaveState(vars, parameterCount);
    }

    /** renderAsyncPrologue: the loop and the switch on ptr, each indenting. */
    method RenderAsyncPrologue()
      modifies writer
      ensures writer.output == old(writer.output) + AsyncPrologue()
      ensures writer.indentation == old(writer.indentation) + 2
    {
      writer.Println("while (1) {");
      writer.Indent();
      writer.Println("switch (ptr) {");
      writer.Indent();
    }

    /** renderAsyncEpilogue: closes the switch and the loop. */
    method RenderAsyncEpilogue()
      modifies writer
      ensures writer.output == old(writer.output) + AsyncEpilogue()
      ensures writer.indentation == old(writer.indentation) - 2
    {
      writer.Outdent();
      writer.Println("}");
      writer.Println("next_state:;");
      writer.Outdent();
      writer.Println("}");
      writer.Println("exit_loop:");
    }
  }

  /** Ascending over vars[..i+1] is Ascending over vars[..i] followed by
      vars[i]'s slot when it qualifies. */
  lemma AscendingSnoc(vars: seq<VariableNode>, i: nat, minVar: nat)
    requires i < |vars| && TypedFrom(vars[..i], minVar) && !Untyped(vars[i], minVar)
    ensures TypedFrom(vars[..i + 1], minVar)
    ensures Ascending(vars[..i + 1], minVar) ==
            Ascending(vars[..i], minVar) + (if Qualifies(vars[i], minVar) then [SlotOf(vars[i])] else [])
  {
    assert forall j :: 0 <= j < i + 1 ==> vars[..i + 1][j] == vars[j];
    assert vars[..i + 1][..i] == vars[..i];
  }

  /** Descending over vars[i..] is vars[i]'s slot (when it qualifies) before
      Descending over vars[i+1..]. */
  lemma DescendingPrepend(vars: seq<VariableNode>, i: nat, minVar: nat)
    requires i < |vars| && TypedFrom(vars[i + 1..], minVar) && !Untyped(vars[i], minVar)
    ensures TypedFrom(vars[i..], minVar)
    ensures Descending(vars[i..], minVar) ==
            Descending(vars[i + 1..], minVar) + (if Qualifies(vars[i], minVar) then [SlotOf(vars[i])] else [])
  {
    assert forall j :: 0 <= j < |vars[i..]| ==> vars[i..][j] == vars[i + j];
    assert vars[i..] == [vars[i]] + vars[i + 1..];
    DescendingCons(vars[i], vars[i + 1..], minVar);
  }

  lemma {:induction false} DescendingCons(v: VariableNode, rest: seq<VariableNode>, minVar: nat)
    requires TypedFrom([v] + rest, minVar) && TypedFrom(rest, minVar)
    requires Qualifies(v, minVar) ==> v.varType.Some?
    ensures Descending([v] + rest, minVar) ==
            Descending(rest, minVar) + (if Qualifies(v, minVar) then [SlotOf(v)] else [])
    decreases |rest|
  {
    if rest != [] {
      var w := [v] + rest;
      var init := rest[..|rest| - 1];
      var last := rest[|rest| - 1];
      var qLast := if Qualifies(last, minVar) then [SlotOf(last)] else [];
      var qv := if Qualifies(v, minVar) then [SlotOf(v)] else [];
      assert w[|w| - 1] == last;
      assert w[..|w| - 1] == [v] + init;
      assert TypedFrom(init, minVar) by {
        assert forall j :: 0 <= j < |init| ==> init[j] == rest[j];
      }
      assert TypedFrom([v] + init, minVar) by {
        assert forall j :: 0 <= j < |[v] + init| ==> ([v] + init)[j] == w[j];
      }
      DescendingCons(v, init, minVar);
      calc {
        Descending(w, minVar);
        qLast + Descending([v] + init, minVar);
        qLast + (Descending(init, minVar) + qv);
        (qLast + Descending(init, minVar)) + qv;
        Descending(rest, minVar) + qv;
      }
    } else {
      assert ([v] + rest)[..0] == [];
    }
  }
}
