/** The value a variable was last written with, shown once over its slot of the shared buffer
  (Variable.cpp), and the masked digital writes that read through that overlay
  (ADSPortDriver::digitalRead, digitalWrite). */
module Readback {
  import opened Types
  import opened Errors
  import opened Wire

  /** What the shared buffer offers a variable: an error of the lookup, or its result code and bytes. */
  datatype View = Unavailable(rc: int) | Fetched(code: bv32, bytes: seq<Byte>)

  datatype Outcome = Failed(rc: int) | Got(bytes: seq<Byte>)

  /** The pending written value (empty when there is none) over the current view. */
  datatype Cell = Cell(pending: seq<Byte>, view: View)

  predicate Available(view: View) { view.Fetched? && view.code == 0 }

  /** `read_from_buffer`: a good read shows a pending value once, and consumes it. */
  function ReadCell(readback: bool, cell: Cell): (Outcome, Cell)
  {
    if cell.view.Unavailable? then (Failed(cell.view.rc), cell)
    else if cell.view.code != 0 then (Failed(EPICSADS_NO_DATA), cell)
    else if readback && cell.pending != [] then (Got(cell.pending), cell.(pending := []))
    else (Got(cell.view.bytes), cell)
  }

  /** Status of `write`, given the device's answer `rc` in case it is asked. */
  function WriteStatus(resolved: bool, size: nat, data: seq<Byte>, rc: int): int
  {
    if !resolved then EPICSADS_NOT_RESOLVED
    else if |data| > size then EPICSADS_OVERFLOW
    else EpicsCode(rc)
  }

  function WriteCell(readback: bool, resolved: bool, size: nat, data: seq<Byte>, rc: int, cell: Cell): Cell
  {
    if WriteStatus(resolved, size, data, rc) == 0 && readback then cell.(pending := Fit(data, size)) else cell
  }

  // ---------- runs of one readback variable ----------

  datatype Event =
    | Write(data: seq<Byte>, resolved: bool, rc: int)
    | Refresh(view: View)  // a sum-read, good or bad, changed what the buffer offers
    | Fetch                // read_from_buffer

  predicate WellSized(size: nat, events: seq<Event>)
  {
    forall i | 0 <= i < |events| :: events[i].Refresh? && events[i].view.Fetched? ==> |events[i].view.bytes| == size
  }

  function AfterRun(size: nat, first: View, events: seq<Event>): Cell
  {
    if events == [] then Cell([], first)
    else
      var cell := AfterRun(size, first, events[..|events| - 1]);
      match events[|events| - 1]
      case Write(data, resolved, rc) => WriteCell(true, resolved, size, data, rc, cell)
      case Refresh(view) => cell.(view := view)
      case Fetch => ReadCell(true, cell).1
  }

  /** The view left by the last refresh. */
  function CurrentView(first: View, events: seq<Event>): View
  {
    if events == [] then first
    else if events[|events| - 1].Refresh? then events[|events| - 1].view
    else CurrentView(first, events[..|events| - 1])
  }

  /** The last acknowledged write, if no read has succeeded since, found by looking back. */
  function UnreadWrite(size: nat, first: View, events: seq<Event>): Option<seq<Byte>>
  {
    if events == [] then None
    else
      var before := events[..|events| - 1];
      match events[|events| - 1]
      case Write(data, resolved, rc) =>
        if resolved && |data| <= size && rc == 0 then Some(Fit(data, size)) else UnreadWrite(size, first, before)
      case Refresh(_) => UnreadWrite(size, first, before)
      case Fetch => if Available(CurrentView(first, before)) then None else UnreadWrite(size, first, before)
  }

  lemma {:induction false} CellOfRun(size: nat, first: View, events: seq<Event>)
    requires size > 0
    ensures AfterRun(size, first, events).view == CurrentView(first, events)
    ensures AfterRun(size, first, events).pending
         == (if UnreadWrite(size, first, events).Some? then UnreadWrite(size, first, events).value else [])
    ensures UnreadWrite(size, first, events).Some? ==> |UnreadWrite(size, first, events).value| == size
  {
    if events != [] {
      CellOfRun(size, first, events[..|events| - 1]);
    }
  }

  lemma {:induction false} CurrentViewSized(size: nat, first: View, events: seq<Event>)
    requires first.Fetched? ==> |first.bytes| == size
    requires WellSized(size, events)
    ensures CurrentView(first, events).Fetched? ==> |CurrentView(first, events).bytes| == size
  {
    if events != [] {
      CurrentViewSized(size, first, events[..|events| - 1]);
    }
  }

  lemma {:induction false} EmptyWhenSizeZero(first: View, events: seq<Event>)
    ensures AfterRun(0, first, events).view == CurrentView(first, events)
    ensures AfterRun(0, first, events).pending == []
    ensures UnreadWrite(0, first, events).Some? ==> UnreadWrite(0, first, events).value == []
  {
    if events != [] {
      EmptyWhenSizeZero(first, events[..|events| - 1]);
    }
  }

  /** After any run, a read fails exactly when the buffer has nothing good to offer; otherwise it
    returns the latest acknowledged write, zero-padded, if no read succeeded since that write,
    and the buffer's bytes if one did or there was no such write. */
  lemma ReadbackIsOneShot(size: nat, first: View, events: seq<Event>)
    requires first.Fetched? ==> |first.bytes| == size
    requires WellSized(size, events)
    ensures var outcome := ReadCell(true, AfterRun(size, first, events)).0;
            var view := CurrentView(first, events);
            if !Available(view) then outcome.Failed?
            else if UnreadWrite(size, first, events).Some? then outcome == Got(UnreadWrite(size, first, events).value)
            else outcome == Got(view.bytes)
  {
    CurrentViewSized(size, first, events);
    if size == 0 {
      EmptyWhenSizeZero(first, events);
    } else {
      CellOfRun(size, first, events);
    }
  }
}
