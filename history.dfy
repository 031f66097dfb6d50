/**
 * The command history of `command_history.py`: an in-memory list of entries that is appended
 * to, popped from and cleared, each change followed by an attempt to save the list to the
 * history file. The file is modelled by a ghost snapshot; how a load or a save ends is a
 * parameter, and so is the timestamp that the source takes from the clock.
 */
module History {
  import opened Wrappers

  /** The JSON object recorded as a command's result. */
  type Record = map<string, string>

  /** One history entry: `{"command": …, "timestamp": …, "result": …}`. */
  datatype Entry = Entry(command: string, timestamp: string, result: Option<Record>)

  /** What reading the history file gave: no file, an unreadable file, or a list of entries. */
  datatype LoadOutcome = Missing | Unreadable | Loaded(entries: seq<Entry>)

  /**
   * How `_save_history` ends: `open(..., 'w')` fails and the file is untouched; the open
   * succeeds, truncating the file, and `json.dump` then fails, leaving an empty or partial
   * file; or the whole list is written.
   */
  datatype SaveOutcome = OpenFailed | DumpFailed | Written

  /** The history list after loading. */
  function LoadedHistory(load: LoadOutcome): (h: seq<Entry>)
    ensures load.Loaded? ==> h == load.entries
    ensures !load.Loaded? ==> h == []
  {
    if load.Loaded? then load.entries else []
  }

  /** The history after `add_command`. */
  function Appended(h: seq<Entry>, e: Entry): (r: seq<Entry>)
    ensures |r| == |h| + 1 && r[..|h|] == h && r[|h|] == e
  {
    h + [e]
  }

  /** The entry `get_last_command` reports, if any. */
  function Last(h: seq<Entry>): (r: Option<Entry>)
    ensures r.None? <==> h == []
    ensures r.Some? ==> r.value == h[|h| - 1]
  {
    if h == [] then None else Some(h[|h| - 1])
  }

  /** The history after `undo_last_command`. */
  function Popped(h: seq<Entry>): (r: seq<Entry>)
    ensures h == [] ==> r == []
    ensures h != [] ==> r == h[..|h| - 1] && |r| == |h| - 1
  {
    if h == [] then [] else h[..|h| - 1]
  }

  /** Undoing right after adding an entry gives that entry back and restores the previous history. */
  lemma UndoAfterAdd(h: seq<Entry>, e: Entry)
    ensures Last(Appended(h, e)) == Some(e)
    ensures Popped(Appended(h, e)) == h
  {
  }

  /** Adding the last entry back after undoing it restores the history. */
  lemma AddAfterUndo(h: seq<Entry>)
    requires h != []
    ensures Appended(Popped(h), Last(h).value) == h
  {
  }

  class CommandHistory {
    /** The in-memory list `self.history`. */
    var history: seq<Entry>
    /** The list held in the history file, if the file holds one. */
    ghost var saved: Option<seq<Entry>>

    /** `__init__` followed by `_load_history`: a failed or missing load leaves the history empty. */
    constructor (load: LoadOutcome)
      ensures history == LoadedHistory(load)
      ensures load.Loaded? ==> saved == Some(load.entries)
      ensures !load.Loaded? ==> saved == None
    {
      history := LoadedHistory(load);
      saved := if load.Loaded? then Some(load.entries) else None;
    }

    /**
     * `_save_history`: once written, the file holds the in-memory list; a failed open leaves it
     * unchanged; a dump that fails after the truncating open leaves no list in it.
     */
    method Save(outcome: SaveOutcome)
      modifies this
      ensures history == old(history)
      ensures outcome == Written ==> saved == Some(history)
      ensures outcome == OpenFailed ==> saved == old(saved)
      ensures outcome == DumpFailed ==> saved == None
    {
      match outcome
      case Written => saved := Some(history);
      case OpenFailed =>
      case DumpFailed => saved := None;
    }

    /** `add_command`: one entry is appended at the end, then the list is saved. */
    method AddCommand(command: string, timestamp: string, result: Option<Record>, outcome: SaveOutcome)
      modifies this
      ensures history == Appended(old(history), Entry(command, timestamp, result))
      ensures outcome == Written ==> saved == Some(history)
      ensures outcome == OpenFailed ==> saved == old(saved)
      ensures outcome == DumpFailed ==> saved == None
    {
      history := history + [Entry(command, timestamp, result)];
      Save(outcome);
    }

    /** `get_last_command`: the last entry, or nothing for an empty history. */
    method GetLastCommand() returns (r: Option<Entry>)
      ensures r.None? <==> history == []
      ensures r.Some? ==> r.value == history[|history| - 1]
    {
      if history == [] {
        r := None;
      } else {
        r := Some(history[|history| - 1]);
      }
    }

    /**
     * `undo_last_command`: on an empty history nothing happens and nothing is saved; otherwise
     * the last entry is removed, the list saved, and the removed entry returned.
     */
    method UndoLastCommand(outcome: SaveOutcome) returns (r: Option<Entry>)
      modifies this
      ensures r == Last(old(history))
      ensures history == Popped(old(history))
      ensures old(history) == [] ==> saved == old(saved)
      ensures old(history) != [] && outcome == Written ==> saved == Some(history)
      ensures old(history) != [] && outcome == OpenFailed ==> saved == old(saved)
      ensures old(history) != [] && outcome == DumpFailed ==> saved == None
    {
      if history == [] {
        return None;
      }
      r := Some(history[|history| - 1]);
      history := history[..|history| - 1];
      Save(outcome);
    }

    /** `get_history`: every entry, oldest first. */
    method GetHistory() returns (h: seq<Entry>)
      ensures h == history
    {
      h := history;
    }

    /** `clear_history`: the history becomes empty, then it is saved. */
    method ClearHistory(outcome: SaveOutcome)
      modifies this
      ensures history == []
      ensures outcome == Written ==> saved == Some([])
      ensures outcome == OpenFailed ==> saved == old(saved)
      ensures outcome == DumpFailed ==> saved == None
    {
      history := [];
      Save(outcome);
    }
  }

  /** `add_command` followed by `undo_last_command` returns the new entry and restores the history. */
  method AddThenUndo(ch: CommandHistory, command: string, timestamp: string, result: Option<Record>)
    returns (r: Option<Entry>)
    modifies ch
    ensures r == Some(Entry(command, timestamp, result))
    ensures ch.history == old(ch.history)
    ensures ch.saved == Some(old(ch.history))
  {
    ch.AddCommand(command, timestamp, result, Written);
    r := ch.UndoLastCommand(Written);
    UndoAfterAdd(old(ch.history), Entry(command, timestamp, result));
  }
}
