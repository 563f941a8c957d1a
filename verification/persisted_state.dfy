/**
  A value cached in memory over a file on disk: `PersistedStateContainer` and
  `PersistedState` of cli/src/state.rs. The file holds a value, or nothing, or text that does
  not parse.
 */
module PersistedState {
  import opened Wrappers

  datatype Content<+T> = Missing | Garbage | Holds(value: T)

  /** How writing the file goes: completely, not at all, or after it was truncated. */
  datatype WriteOutcome = Written | NotOpened | CutShort

  function Loaded<T>(cached: Option<T>, file: Content<T>, default_: T): T {
    if cached.Some? then cached.value else if file.Holds? then file.value else default_
  }

  function Saved<T>(file: Content<T>, value: T, outcome: WriteOutcome): Content<T> {
    match outcome
    case Written => Holds(value)
    case NotOpened => file
    case CutShort => Garbage
  }

  class DiskFile<T> {
    var content: Content<T>

    constructor (content: Content<T>)
      ensures this.content == content
    {
      this.content := content;
    }
  }

  class Container<T> {
    const file: DiskFile<T>
    const default_: T
    var state: Option<T>

    constructor (file: DiskFile<T>, default_: T)
      ensures this.file == file && this.default_ == default_ && state == None
    {
      this.file, this.default_, state := file, default_, None;
    }

    function Value(): T
      reads this, file
    {
      Loaded(state, file.content, default_)
    }

    method LoadOrGet() returns (value: T)
      modifies this
      ensures value == old(Value()) && state == Some(value)
    {
      if state.Some? {
        return state.value;
      }
      match file.content {
        case Holds(v) => value := v;
        case _ => value := default_;
      }
      state := Some(value);
    }

    /** The cached value is replaced even if the file cannot be written. */
    method Save(value: T, outcome: WriteOutcome) returns (ok: bool)
      modifies this, file
      ensures ok == outcome.Written?
      ensures state == Some(value) && file.content == Saved(old(file.content), value, outcome)
    {
      state := Some(value);
      match outcome {
        case Written => file.content := Holds(value);
        case NotOpened =>
        case CutShort => file.content := Garbage;
      }
      ok := outcome.Written?;
    }

    method Update(mutator: T -> T, outcome: WriteOutcome) returns (ok: bool)
      modifies this, file
      ensures ok == outcome.Written?
      ensures state == Some(mutator(old(Value())))
      ensures file.content == Saved(old(file.content), mutator(old(Value())), outcome)
    {
      var value := LoadOrGet();
      ok := Save(mutator(value), outcome);
    }
  }
}
