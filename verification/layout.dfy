/** The layout records the first pass builds and the second pass reads
    (ClassData / MethodData), and the target parameters whose definitions live in
    ClassData and are not part of this model. */
module Layout {
  import opened Options
  import opened OrderedMap

  type pos = n: int | n > 0 witness 1

  /** What `ClassData.getSize(typeTag)` answers: a storage size and an LLVM type. */
  datatype SizeInfo = SizeInfo(bytes: pos, llvmType: string)

  /** A field: its type tag and its byte offset inside an instance. */
  datatype FieldInfo = FieldInfo(typeTag: string, offset: int)

  /** A method: the most specific class defining it, its return type tag, its
      vtable slot, and its (type tag, name) parameters (None when it has none). */
  datatype MethodInfo = MethodInfo(
    className: string,
    returnType: string,
    slot: nat,
    arguments: Option<seq<(string, string)>>)

  datatype ClassLayout = ClassLayout(parent: Option<string>, vars: OMap<FieldInfo>, methods: OMap<MethodInfo>)

  /** The parts of ClassData that are only used, never defined, here:
      `pointerSize`, `getSize`, `getOffsetOfNextVar` and the instance size `setSize` computes. */
  datatype Target = Target(
    pointerSize: pos,
    getSize: string -> SizeInfo,
    offsetOfNextVar: ClassLayout -> int,
    instanceSize: ClassLayout -> int)

  function LlvmType(t: Target, typeTag: string): string
  {
    t.getSize(typeTag).llvmType
  }

  function EmptyLayout(parent: Option<string>): ClassLayout
  {
    ClassLayout(parent, [], [])
  }

  /** The method at map position i occupies vtable slot i. */
  predicate SlotsDense(methods: OMap<MethodInfo>)
  {
    forall i :: 0 <= i < |methods| ==> methods[i].1.slot == i
  }

  predicate WellFormedLayout(l: ClassLayout)
  {
    NoDupKeys(l.vars) && NoDupKeys(l.methods) && SlotsDense(l.methods)
  }
}
