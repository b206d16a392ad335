/** The persistence rules of the address book (book.py:36-44 and 148-183), with the file
    system and pickle replaced by what they report: the kind of the data-file path and
    what unpickling its content gives. */
module Storage {
  import opened Wrappers
  import opened Errors
  import opened Book

  /** What the file system says of a path: absent, a regular file, or something else
      (a directory, say). */
  datatype PathKind = Missing | RegularFile | NotRegularFile

  /** What `pickle.load` makes of a regular file: a pickled book, or a failure. */
  datatype Content = Pickled(state: BookState) | Corrupt

  /** `__getstate__`: the state that is pickled is the book with its data-file path cleared. */
  function Snapshot(s: BookState): (r: BookState)
    ensures r.datafile == None
    ensures r.names == s.names && r.data == s.data && r.window == s.window
  {
    s.(datafile := None)
  }

  /** What `save` does: returns False without writing, or writes `snapshot` to `path` and
      returns True. */
  datatype Saved = NotSaved | Written(path: string, snapshot: BookState)

  /** `save()`: nothing is written without a data file; a data-file path that exists and
      is not a regular file is refused; otherwise the snapshot is written to it. */
  function Save(s: BookState, target: PathKind): (r: Result<Saved>)
    ensures r == Success(NotSaved) <==> s.datafile.None?
    ensures r.Failure? <==> s.datafile.Some? && target == NotRegularFile
    ensures r.Failure? ==> r.error == DataFileWrongFormat(s.datafile.value)
    ensures r.Success? && r.value.Written? ==>
      s.datafile == Some(r.value.path) && r.value.snapshot == Snapshot(s)
  {
    match s.datafile
    case None => Success(NotSaved)
    case Some(path) =>
      if target == NotRegularFile then Failure(DataFileWrongFormat(path))
      else Success(Written(path, Snapshot(s)))
  }

  /** `AddressBook.load(path)`: a missing file gives a new empty book bound to the path;
      a path that is not a regular file, or whose content does not unpickle, is refused;
      otherwise the pickled book is restored and bound to the path it was read from. */
  function Load(path: string, kind: PathKind, content: Content): (r: Result<BookState>)
    ensures r.Failure? <==> kind == NotRegularFile || (kind == RegularFile && content == Corrupt)
    ensures r.Failure? ==> r.error == DataFileWrongFormat(path)
    ensures r.Success? ==> r.value.datafile == Some(path)
    ensures kind == Missing ==>
      r.value.Valid() && r.value.Values() == [] && r.value.window == DefaultWindow
    ensures kind == RegularFile && content.Pickled? ==> Snapshot(r.value) == Snapshot(content.state)
  {
    match kind
    case Missing => Success(EmptyBook(DefaultWindow, Some(path)))
    case NotRegularFile => Failure(DataFileWrongFormat(path))
    case RegularFile =>
      match content
      case Corrupt => Failure(DataFileWrongFormat(path))
      case Pickled(state) => Success(state.(datafile := Some(path)))
  }

  /** Saving a book with a data file and loading that file back restores the same book:
      the same records in the same order, the same window, bound to the same file. */
  lemma SaveThenLoad(s: BookState, target: PathKind)
    requires s.datafile.Some? && target != NotRegularFile
    ensures Save(s, target).Success? && Save(s, target).value.Written?
    ensures Load(s.datafile.value, RegularFile, Pickled(Save(s, target).value.snapshot)) == Success(s)
  {
  }

  /** The snapshot does not hold the path, so the same snapshot loaded from another file is
      bound to that file instead. */
  lemma SnapshotRelocates(s: BookState, path: string)
    ensures Load(path, RegularFile, Pickled(Snapshot(s))) == Success(s.(datafile := Some(path)))
  {
  }

  /** The first run: loading a missing file gives an empty book whose `save` writes that file. */
  lemma FirstRunSaves(path: string, content: Content)
    ensures Load(path, Missing, content).Success?
    ensures Save(Load(path, Missing, content).value, Missing)
         == Success(Written(path, EmptyBook(DefaultWindow, None)))
  {
  }
}
