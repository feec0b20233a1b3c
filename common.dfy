/** Values shared by the analysis, the devirtualization pass and the tools:
    Java value types, method references, class metadata, bytes and a few
    string helpers with the meaning of java.lang.String's methods. */
module Common {

  datatype Option<+T> = None | Some(value: T)

  /** The primitive kinds of a Java value type. */
  datatype PrimitiveKind = Boolean | Byte | Short | Char | Int | Long | Float | Double

  /** org.teavm.model.ValueType: a primitive, void, an object type named by its
      class, or an array of an item type. */
  datatype ValueType =
    | Primitive(kind: PrimitiveKind)
    | Void
    | Object(className: string)
    | Array(itemType: ValueType)

  /** java.lang.Object, the root of every class hierarchy. */
  const ObjectClass: string := "java.lang.Object"

  /** The value type of java.lang.Object (ValueType.object("java.lang.Object")). */
  function RootType(): (t: ValueType)
    ensures t.Object? && t.className == ObjectClass
  {
    Object(ObjectClass)
  }

  /** A method descriptor: its name and its signature, the parameter types
      followed by the result type, as org.teavm.model.MethodDescriptor keeps it. */
  datatype MethodDescriptor = MethodDescriptor(name: string, signature: seq<ValueType>)

  /** A method reference: the declaring class and the descriptor. */
  datatype MethodRef = MethodRef(className: string, desc: MethodDescriptor)

  /** What the class metadata provider (ClassReader) tells about one class:
      the superclass, the implemented interfaces in declaration order and the
      descriptors of the methods the class itself declares. */
  datatype ClassInfo = ClassInfo(parent: Option<string>, interfaces: seq<string>, methods: set<MethodDescriptor>)

  /** ClassReaderSource: a class name resolves when it is a key. */
  type ClassSource = map<string, ClassInfo>

  /** A Java byte, kept by its unsigned value. */
  newtype byte = x: int | 0 <= x < 256

  /** String.startsWith. */
  predicate StartsWith(s: string, prefix: string)
  {
    |prefix| <= |s| && s[..|prefix|] == prefix
  }

  /** String.endsWith. */
  predicate EndsWith(s: string, suffix: string)
  {
    |suffix| <= |s| && s[|s| - |suffix|..] == suffix
  }

  /** The text of one decimal digit. */
  function DigitChar(d: nat): (c: char)
    requires d < 10
    ensures '0' <= c <= '9'
    ensures c as int - '0' as int == d
  {
    "0123456789"[d]
  }

  /** The value of an ASCII decimal digit. */
  function DigitValue(c: char): (d: nat)
    requires '0' <= c <= '9'
    ensures d < 10 && DigitChar(d) == c
  {
    c as int - '0' as int
  }

  /** String.valueOf of a non-negative int: its decimal digits, no leading zero. */
  function NatToString(n: nat): (s: string)
    ensures |s| > 0
    ensures forall i :: 0 <= i < |s| ==> '0' <= s[i] <= '9'
    ensures |s| > 1 ==> s[0] != '0'
    decreases n
  {
    if n < 10 then [DigitChar(n)] else NatToString(n / 10) + [DigitChar(n % 10)]
  }

  /** The value of a non-empty string of ASCII digits. */
  function DigitsValue(s: string): (v: nat)
    requires forall i :: 0 <= i < |s| ==> '0' <= s[i] <= '9'
    decreases |s|
  {
    if s == [] then 0 else DigitsValue(s[..|s| - 1]) * 10 + DigitValue(s[|s| - 1])
  }

  /** Reading back the decimal text of n gives n. */
  lemma {:induction false} NatToStringRoundTrip(n: nat)
    ensures DigitsValue(NatToString(n)) == n
    decreases n
  {
    var s := NatToString(n);
    if n < 10 {
      assert s == [DigitChar(n)];
      assert s[..0] == [];
    } else {
      var p := NatToString(n / 10);
      assert s == p + [DigitChar(n % 10)];
      assert s[..|s| - 1] == p;
      NatToStringRoundTrip(n / 10);
    }
  }

  /** Distinct numbers have distinct decimal texts. */
  lemma NatToStringInjective(m: nat, n: nat)
    ensures NatToString(m) == NatToString(n) ==> m == n
  {
    NatToStringRoundTrip(m);
    NatToStringRoundTrip(n);
  }

  /** Concatenation of a sequence of fragments. */
  function Concat(parts: seq<string>): string
  {
    if parts == [] then "" else Concat(parts[..|parts| - 1]) + parts[|parts| - 1]
  }

  lemma {:induction false} ConcatAppend(a: seq<string>, b: seq<string>)
    ensures Concat(a + b) == Concat(a) + Concat(b)
    decreases |b|
  {
    if b == [] {
      assert a + b == a;
    } else {
      var b' := b[..|b| - 1];
      assert (a + b)[..|a + b| - 1] == a + b';
      ConcatAppend(a, b');
    }
  }

  /** Strings joined with a separator between neighbours (String.join). */
  function Join(items: seq<string>, sep: string): string
  {
    if items == [] then ""
    else if |items| == 1 then items[0]
    else Join(items[..|items| - 1], sep) + sep + items[|items| - 1]
  }

  /** The first n + 1 elements are the first n and then element n. */
  lemma TakeSnoc<T>(s: seq<T>, n: nat)
    requires n < |s|
    ensures s[..n + 1] == s[..n] + [s[n]]
  {
  }

  lemma AppendAssociative<T>(a: seq<T>, b: seq<T>, c: seq<T>)
    ensures a + b + c == a + (b + c)
  {
  }
}
