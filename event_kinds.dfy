/**
 * The hierarchical file-system event taxonomy of the `notify` crate
 * (`notify::EventKind` and the sub-kinds in `notify::event`), which the
 * configured triggers and the observed events are both drawn from.
 * Every level has an `Any` wildcard and an `Other` catch-all.
 */
module EventKinds {

  datatype AccessMode = Any | Execute | Read | Write | Other

  datatype AccessKind = Any | Read | Open(mode: AccessMode) | Close(mode: AccessMode) | Other

  datatype CreateKind = Any | File | Folder | Other

  datatype DataChange = Any | Size | Content | Other

  datatype MetadataKind = Any | AccessTime | WriteTime | Permissions | Ownership | Extended | Other

  datatype RenameMode = Any | To | From | Both | Other

  datatype ModifyKind = Any | Data(change: DataChange) | Metadata(kind: MetadataKind) | Name(mode: RenameMode) | Other

  datatype RemoveKind = Any | File | Folder | Other

  datatype EventKind =
    | Any
    | Access(access: AccessKind)
    | Create(cre: CreateKind)
    | Modify(mod: ModifyKind)
    | Remove(rem: RemoveKind)
    | Other

  /** True when no level of the kind is an `Any` wildcard. */
  predicate Specific(k: EventKind) {
    match k
    case Any => false
    case Access(a) =>
      (match a
       case Any => false
       case Open(m) => m != AccessMode.Any
       case Close(m) => m != AccessMode.Any
       case _ => true)
    case Create(c) => c != CreateKind.Any
    case Modify(m) =>
      (match m
       case Any => false
       case Data(d) => d != DataChange.Any
       case Metadata(md) => md != MetadataKind.Any
       case Name(r) => r != RenameMode.Any
       case Other => true)
    case Remove(r) => r != RemoveKind.Any
    case Other => true
  }

  /** The kind with `Close(m)` read as `Open(m)`: the matcher does not tell them apart. */
  function OpenCloseBlind(k: EventKind): EventKind {
    match k
    case Access(Close(m)) => Access(Open(m))
    case _ => k
  }

  /** The top-level category a kind belongs to: 0 Any, 1 Access, 2 Create, 3 Modify, 4 Remove, 5 Other. */
  function Category(k: EventKind): nat {
    match k
    case Any => 0
    case Access(_) => 1
    case Create(_) => 2
    case Modify(_) => 3
    case Remove(_) => 4
    case Other => 5
  }
}
