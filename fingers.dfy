/**
 * The finger table: which touch or mouse cursors are currently down, and
 * where each one is. The three cursor event handlers of `FingerController`
 * update it in place; the attraction field reads it.
 */
module Fingers {
  import opened Wrappers

  /** The framework's cursor id, unique per active contact. */
  type CursorId = int

  /** Cursor-down: the entry for `id` is inserted, or overwritten if present. */
  function Down<P>(table: map<CursorId, P>, id: CursorId, pos: P): (r: map<CursorId, P>)
    ensures r.Keys == table.Keys + {id}
    ensures r[id] == pos
    ensures forall k :: k in table && k != id ==> r[k] == table[k]
  {
    table[id := pos]
  }

  /** Cursor-motion: only an entry that already exists is overwritten. */
  function Motion<P>(table: map<CursorId, P>, id: CursorId, pos: P): (r: map<CursorId, P>)
    ensures r.Keys == table.Keys
    ensures id !in table ==> r == table
    ensures id in table ==> r[id] == pos
    ensures forall k :: k in table && k != id ==> r[k] == table[k]
  {
    if id in table then table[id := pos] else table
  }

  /** Cursor-up: the entry for `id` is deleted if present. */
  function Up<P>(table: map<CursorId, P>, id: CursorId): (r: map<CursorId, P>)
    ensures r.Keys == table.Keys - {id}
    ensures forall k :: k in r ==> r[k] == table[k]
    ensures id !in table ==> r == table
  {
    if id in table then table - {id} else table
  }

  lemma DownThenUp<P>(table: map<CursorId, P>, id: CursorId, pos: P)
    ensures id !in Up(Down(table, id, pos), id)
    ensures Up(Down(table, id, pos), id) == Up(table, id)
  {
  }

  lemma DownIdempotent<P>(table: map<CursorId, P>, id: CursorId, pos: P)
    ensures Down(Down(table, id, pos), id, pos) == Down(table, id, pos)
  {
  }

  lemma MotionAfterDown<P>(table: map<CursorId, P>, id: CursorId, pos: P, pos': P)
    ensures Motion(Down(table, id, pos), id, pos') == Down(table, id, pos')
  {
  }

  /** A cursor event as the framework delivers it to the handlers. */
  datatype CursorEvent<P> =
    | CursorDown(id: CursorId, pos: P)
    | CursorMotion(id: CursorId, pos: P)
    | CursorUp(id: CursorId)

  function Handle<P>(table: map<CursorId, P>, e: CursorEvent<P>): (r: map<CursorId, P>)
  {
    match e
    case CursorDown(id, pos) => Down(table, id, pos)
    case CursorMotion(id, pos) => Motion(table, id, pos)
    case CursorUp(id) => Up(table, id)
  }

  /** The table after the events are handled in order, oldest first. */
  function Replay<P>(table: map<CursorId, P>, events: seq<CursorEvent<P>>): (r: map<CursorId, P>)
    decreases |events|
  {
    if events == [] then table
    else Handle(Replay(table, events[..|events| - 1]), events[|events| - 1])
  }

  /** Whether the latest down or up event for `id` was a down; None if there was neither. */
  function LastToggle<P>(events: seq<CursorEvent<P>>, id: CursorId): (r: Option<bool>)
    decreases |events|
  {
    if events == [] then None
    else
      var e := events[|events| - 1];
      if e.id == id && e.CursorDown? then Some(true)
      else if e.id == id && e.CursorUp? then Some(false)
      else LastToggle(events[..|events| - 1], id)
  }

  /** The position carried by the latest down or motion event for `id`. */
  function LastPos<P>(events: seq<CursorEvent<P>>, id: CursorId): (r: Option<P>)
    decreases |events|
  {
    if events == [] then None
    else
      var e := events[|events| - 1];
      if e.id == id && !e.CursorUp? then Some(e.pos)
      else LastPos(events[..|events| - 1], id)
  }

  /**
   * After any sequence of events, a cursor is in the table exactly when its
   * latest down/up event was a down (or, with no such event, when it was
   * there to begin with), and its position is that of its latest down or
   * motion event (or, with none, its original one).
   */
  lemma {:induction false} ReplayPresence<P>(table: map<CursorId, P>, events: seq<CursorEvent<P>>, id: CursorId)
    ensures id in Replay(table, events) <==>
              (if LastToggle(events, id).Some? then LastToggle(events, id).value else id in table)
    ensures id in Replay(table, events) ==>
              if LastPos(events, id).Some? then Replay(table, events)[id] == LastPos(events, id).value
              else id in table && Replay(table, events)[id] == table[id]
    ensures LastToggle(events, id) == Some(true) ==> LastPos(events, id).Some?
    decreases |events|
  {
    if events != [] {
      var prefix := events[..|events| - 1];
      ReplayPresence(table, prefix, id);
    }
  }

  /**
   * The finger table owned by the cursor handlers. In the source it is a
   * module-level dictionary; here the controller owns it.
   */
  class FingerController<P> {
    var fingers: map<CursorId, P>

    constructor ()
      ensures fingers == map[]
    {
      fingers := map[];
    }

    method OnDown(id: CursorId, pos: P)
      modifies this
      ensures fingers == Down(old(fingers), id, pos)
    {
      fingers := fingers[id := pos];
    }

    method OnMotion(id: CursorId, pos: P)
      modifies this
      ensures fingers == Motion(old(fingers), id, pos)
    {
      if id in fingers {
        fingers := fingers[id := pos];
      }
    }

    method OnUp(id: CursorId)
      modifies this
      ensures fingers == Up(old(fingers), id)
    {
      if id in fingers {
        fingers := fingers - {id};
      }
    }
  }
}
