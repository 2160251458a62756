/**
  The vocabulary shared by every stage of binding normalization: the tagged
  composition records pushed on the expansion stack, the bindings they carry,
  and the records handed on to the later stages.

  Type ids, component functions, `create` pointers and object pointers are
  opaque identities; only their equality matters, so they are plain integers.
 */
module Entries {

  type TypeId = int
  type FunId = int
  type CreateFn = int
  type ObjectPtr = int
  type VectorFn = int

  /** Whether a binding that still has to be constructed owns its storage. */
  datatype Alloc = NeedsAllocation | NoAllocation

  /** How the bound object is obtained: already built, or built by `create` from `deps`. */
  datatype Recipe =
    | Constructed(objectPtr: ObjectPtr)
    | ToConstruct(alloc: Alloc, create: CreateFn, deps: seq<TypeId>)

  datatype Binding = Binding(typeId: TypeId, recipe: Recipe)

  /** The function that turns the collected elements of a multibinding into the public vector. */
  datatype VectorCreator = VectorCreator(typeId: TypeId, getMultibindingsVector: VectorFn)

  /** A multibinding element together with the vector creator popped next to it. */
  datatype MultibindingPair = MultibindingPair(element: Binding, creator: VectorCreator)

  /** Identity of a lazily installed component: its function, plus the captured arguments if any. */
  datatype ModuleId =
    | NoArgs(fun: FunId)
    | WithArgs(fun: FunId, args: seq<int>)

  /** One record on the expansion stack. */
  datatype Entry =
    | BindingEntry(binding: Binding)
    | MultibindingEntry(element: Binding)
    | VectorCreatorEntry(creator: VectorCreator)
    | CompressedEntry(iTypeId: TypeId, cTypeId: TypeId, createWithCompression: CreateFn)
    | LazyComponent(id: ModuleId)
    | EndMarker(id: ModuleId)

  /** Hint that interface `iTypeId` may be built by constructing C directly into its slot. */
  datatype CompressionInfo = CompressionInfo(iTypeId: TypeId, createWithCompression: CreateFn)

  /** The construction half of a binding that is not yet built. */
  datatype ConstructionData = ConstructionData(create: CreateFn, deps: seq<TypeId>)

  /** What a compression of I -> C destroyed, kept so that it can be undone later. */
  datatype UndoInfo = UndoInfo(iTypeId: TypeId, iBinding: ConstructionData, cBinding: ConstructionData)

  /** Per-type counters of the storage requests made so far. */
  datatype AllocatorData = AllocatorData(ownStorage: multiset<TypeId>, externals: multiset<TypeId>)

  /** The two fatal outcomes of normalization. */
  datatype NormalizationError =
    | InconsistentBinding(typeId: TypeId)
    | InstallLoop(toplevel: TypeId, trace: seq<ModuleId>, repeated: ModuleId)

  datatype Result<+T, +E> = Ok(value: T) | Err(error: E)

  /**
    Two bindings for one type are the same binding when they are of the same
    kind and share the object pointer or the `create` function; dependency
    lists are not compared.
   */
  predicate Consistent(existing: Recipe, incoming: Recipe)
  {
    match (existing, incoming)
    case (Constructed(p), Constructed(q)) => p == q
    case (ToConstruct(a, f, _), ToConstruct(b, g, _)) => a == b && f == g
    case _ => false
  }

  /** The storage request one popped binding makes: one `addType` or one `addExternallyAllocatedType`. */
  function Account(data: AllocatorData, b: Binding): AllocatorData
  {
    match b.recipe
    case Constructed(_) => data
    case ToConstruct(NeedsAllocation, _, _) => data.(ownStorage := data.ownStorage + multiset{b.typeId})
    case ToConstruct(NoAllocation, _, _) => data.(externals := data.externals + multiset{b.typeId})
  }

  /** A map from type ids to bindings whose every value is filed under its own type. */
  predicate KeyedByType(m: map<TypeId, Binding>)
  {
    forall t :: t in m ==> m[t].typeId == t
  }

  predicate Distinct<T(==)>(s: seq<T>)
  {
    forall i, j :: 0 <= i < j < |s| ==> s[i] != s[j]
  }

  /** Some element of a non-empty set: the next key an iteration over a hash container visits. */
  method Pick<T>(s: set<T>) returns (x: T)
    requires s != {}
    ensures x in s
  {
    x :| x in s;
  }
}
