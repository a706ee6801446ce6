/** The walk over the commissioning area of the OTP, and the board it commissions the chip as
    (firmware/src/otp.c; docs/OTP.md lays the area out). */
module Otp {
  import opened Options

  const PAGE_ROWS: nat := 64
  const FIRST_ROW: nat := 0x0c0
  const AREA_END: nat := 0x4c0
  const MAGIC: nat := 0x524f
  const VERSION: nat := 1
  const KEY_NONE: nat := 0
  const KEY_BOARD: nat := 1
  const KEY_SIG: nat := 2

  // The rows of the OTP up to the area's end, 16 bits each.
  predicate Rows(rows: seq<nat>) { |rows| == AREA_END && forall i :: 0 <= i < |rows| ==> rows[i] < 0x1_0000 }

  // Every read is of a row of the area.
  function ReadEcc(rows: seq<nat>, row: nat): (value: nat)
    requires Rows(rows) && FIRST_ROW <= row < AREA_END
    ensures value < 0x1_0000
  {
    rows[row]
  }

  function PageAfter(row: nat): (boundary: nat)
    ensures row < boundary <= row + PAGE_ROWS && boundary % PAGE_ROWS == 0
  {
    (row / PAGE_ROWS + 1) * PAGE_ROWS
  }

  // Where an entry's value ends: two bytes to a row.
  function NextRow(row: nat, len: nat): nat { row + 2 + (len + 1) / 2 }

  // Where a board's name is, if there is one.
  datatype Answer = NoBoard | Board(row: nat, len: nat)
  {
    predicate InArea() { Board? ==> FIRST_ROW <= row && row + (len + 1) / 2 <= AREA_END }
  }

  // ---------------------------------------------------------------------------------------------
  // The walk
  // ---------------------------------------------------------------------------------------------

  datatype Walked = Walked(complete: bool, board: Answer, lastRow: nat) | Malformed

  function WalkEntries(rows: seq<nat>, row: nat, board: Answer): (walked: Walked)
    requires Rows(rows) && FIRST_ROW + 2 <= row <= AREA_END && board.InArea()
    ensures walked.Walked? ==> walked.board.InArea() && row - 1 <= walked.lastRow < AREA_END
    decreases AREA_END - row
  {
    if row >= AREA_END then Walked(false, board, AREA_END - 1)
    else if row + 1 >= AREA_END then Malformed
    else
      var key, len := ReadEcc(rows, row), ReadEcc(rows, row + 1);
      var next := NextRow(row, len);
      if key == KEY_NONE && len == 0 then Walked(false, board, row + 1)
      else if next > AREA_END then Malformed
      else if key == KEY_BOARD then WalkEntries(rows, next, Board(row + 2, len))
      else if key == KEY_SIG then Walked(true, board, next - 1)
      else WalkEntries(rows, next, board)
  }

  function WalkFrom(rows: seq<nat>, boundary: nat, found: Answer): (answer: Answer)
    requires Rows(rows) && FIRST_ROW <= boundary && boundary % PAGE_ROWS == 0 && found.InArea()
    ensures answer.InArea()
    decreases AREA_END - boundary
  {
    if boundary >= AREA_END || ReadEcc(rows, boundary) == 0 then found
    else if ReadEcc(rows, boundary) != MAGIC then NoBoard
    else
      var version := ReadEcc(rows, boundary + 1);
      if version == 0 then WalkFrom(rows, PageAfter(boundary + 1), found)
      else if version != VERSION then NoBoard
      else
        match WalkEntries(rows, boundary + 2, NoBoard)
        case Malformed => NoBoard
        case Walked(complete, board, lastRow) =>
          WalkFrom(rows, PageAfter(lastRow), if complete then board else found)
  }

  method WalkInstance(rows: seq<nat>, boundary: nat)
    returns (ok: bool, complete: bool, hasBoard: bool, thisRow: nat, thisLen: nat, lastRow: nat)
    requires Rows(rows) && FIRST_ROW <= boundary && boundary + 2 <= AREA_END
    ensures WalkEntries(rows, boundary + 2, NoBoard)
         == if ok then Walked(complete, if hasBoard then Board(thisRow, thisLen) else NoBoard, lastRow)
            else Malformed
  {
    ok, complete, hasBoard, thisRow, thisLen, lastRow := true, false, false, 0, 0, boundary + 1;
    var row := boundary + 2;
    while true
      invariant boundary + 2 <= row <= AREA_END && ok && !complete
      invariant (if hasBoard then Board(thisRow, thisLen) else NoBoard).InArea()
      invariant WalkEntries(rows, boundary + 2, NoBoard)
             == WalkEntries(rows, row, if hasBoard then Board(thisRow, thisLen) else NoBoard)
      decreases AREA_END - row
    {
      if row >= AREA_END {
        lastRow := AREA_END - 1;
        break;
      }
      if row + 1 >= AREA_END {
        ok := false;
        return;
      }
      var key, len := ReadEcc(rows, row), ReadEcc(rows, row + 1);
      if key == KEY_NONE && len == 0 {
        lastRow := row + 1;
        break;
      }
      var next := row + 2 + (len + 1) / 2;
      if next > AREA_END {
        ok := false;
        return;
      }
      if key == KEY_BOARD {
        hasBoard := true;
        thisRow := row + 2;
        thisLen := len;
      } else if key == KEY_SIG {
        complete := true;
        lastRow := next - 1;
        break;
      }
      row := next;
    }
  }

  method CommissionedBoard(rows: seq<nat>) returns (found: bool, row: nat, len: nat)
    requires Rows(rows)
    ensures WalkFrom(rows, FIRST_ROW, NoBoard) == if found then Board(row, len) else NoBoard
  {
    found, row, len := false, 0, 0;
    var boundary := FIRST_ROW;
    while boundary < AREA_END
      invariant FIRST_ROW <= boundary && boundary % PAGE_ROWS == 0
      invariant (if found then Board(row, len) else NoBoard).InArea()
      invariant WalkFrom(rows, FIRST_ROW, NoBoard)
             == WalkFrom(rows, boundary, if found then Board(row, len) else NoBoard)
      decreases AREA_END - boundary
    {
      var magic := ReadEcc(rows, boundary);
      if magic == 0 { break; }
      if magic != MAGIC { return false, 0, 0; }
      var version := ReadEcc(rows, boundary + 1);
      var lastRow := boundary + 1;
      if version == VERSION {
        var ok, complete, hasBoard, thisRow, thisLen, last := WalkInstance(rows, boundary);
        if !ok { return false, 0, 0; }
        lastRow := last;
        if complete {
          found, row, len := hasBoard, thisRow, thisLen;
        }
      } else if version != 0 {
        return false, 0, 0;
      }
      boundary := PageAfter(lastRow);
    }
  }

  // ---------------------------------------------------------------------------------------------
  // The layout
  // ---------------------------------------------------------------------------------------------

  datatype Entry = Entry(key: nat, value: seq<nat>)

  // How an instance's entries end: with its signature, with an unwritten key and length, at the
  // end of the area, or before its version was written.
  datatype Ending = Signed(signature: seq<nat>) | Stopped | AtAreaEnd | NoVersion

  datatype Instance = Instance(entries: seq<Entry>, ending: Ending)

  // Byte i of a value, low byte first.
  function ByteAt(rows: seq<nat>, row: nat, i: nat): nat
    requires row + i / 2 < |rows|
  {
    if i % 2 == 0 then rows[row + i / 2] % 256 else rows[row + i / 2] / 256
  }

  predicate ValueAt(rows: seq<nat>, row: nat, value: seq<nat>)
  {
    row + (|value| + 1) / 2 <= |rows| && forall i :: 0 <= i < |value| ==> ByteAt(rows, row, i) == value[i]
  }

  predicate EntryAt(rows: seq<nat>, row: nat, entry: Entry)
    requires Rows(rows)
  {
    && NextRow(row, |entry.value|) <= AREA_END
    && rows[row] == entry.key && rows[row + 1] == |entry.value|
    && ValueAt(rows, row + 2, entry.value)
  }

  // An entry that does not end an instance.
  predicate Ordinary(entry: Entry) { entry.key != KEY_SIG && !(entry.key == KEY_NONE && entry.value == []) }

  function EntriesEnd(row: nat, entries: seq<Entry>): (end: nat)
    ensures end >= row
    decreases |entries|
  {
    if entries == [] then row else EntriesEnd(NextRow(row, |entries[0].value|), entries[1..])
  }

  predicate EntriesAt(rows: seq<nat>, row: nat, entries: seq<Entry>)
    requires Rows(rows)
    decreases |entries|
  {
    entries != [] ==>
      && Ordinary(entries[0]) && EntryAt(rows, row, entries[0])
      && EntriesAt(rows, NextRow(row, |entries[0].value|), entries[1..])
  }

  predicate InstanceAt(rows: seq<nat>, boundary: nat, instance: Instance)
    requires Rows(rows)
  {
    && boundary + 2 <= AREA_END && rows[boundary] == MAGIC
    && var end := EntriesEnd(boundary + 2, instance.entries);
       match instance.ending
       case NoVersion => rows[boundary + 1] == 0 && instance.entries == []
       case Signed(signature) =>
         && rows[boundary + 1] == VERSION && EntriesAt(rows, boundary + 2, instance.entries)
         && EntryAt(rows, end, Entry(KEY_SIG, signature))
       case Stopped =>
         && rows[boundary + 1] == VERSION && EntriesAt(rows, boundary + 2, instance.entries)
         && end + 2 <= AREA_END && rows[end] == 0 && rows[end + 1] == 0
       case AtAreaEnd =>
         && rows[boundary + 1] == VERSION && EntriesAt(rows, boundary + 2, instance.entries)
         && end == AREA_END
  }

  function LastRow(boundary: nat, instance: Instance): (last: nat)
    ensures last > boundary
  {
    var end := EntriesEnd(boundary + 2, instance.entries);
    match instance.ending
    case NoVersion => boundary + 1
    case Signed(signature) => NextRow(end, |signature|) - 1
    case Stopped => end + 1
    case AtAreaEnd => end - 1
  }

  // Instances one after the other, each on the first page boundary after the last.
  predicate LaidOut(rows: seq<nat>, boundary: nat, instances: seq<Instance>)
    requires Rows(rows)
    decreases |instances|
  {
    if instances == [] then boundary >= AREA_END || rows[boundary] == 0
    else
      && InstanceAt(rows, boundary, instances[0])
      && LaidOut(rows, PageAfter(LastRow(boundary, instances[0])), instances[1..])
  }

  // The board an instance names: its last entry for one.
  function NameIn(entries: seq<Entry>, before: Option<seq<nat>>): Option<seq<nat>>
  {
    if entries == [] then before
    else NameIn(entries[1..], if entries[0].key == KEY_BOARD then Some(entries[0].value) else before)
  }

  // The last of the signed instances, if there is one.
  function LastSigned(instances: seq<Instance>): (last: Option<nat>)
    ensures last.Some? ==> last.value < |instances| && instances[last.value].ending.Signed?
    ensures forall k :: 0 <= k < |instances| && (last.Some? ==> k > last.value) ==> !instances[k].ending.Signed?
  {
    if instances == [] then None
    else if instances[|instances| - 1].ending.Signed? then Some(|instances| - 1)
    else LastSigned(instances[..|instances| - 1])
  }

  // The name in force after instances, having been `name` before.
  function NameAfter(instances: seq<Instance>, name: Option<seq<nat>>): Option<seq<nat>>
  {
    match LastSigned(instances)
    case None => name
    case Some(k) => NameIn(instances[k].entries, None)
  }

  // The board that instances commission the chip as.
  function Commissioned(instances: seq<Instance>): Option<seq<nat>> { NameAfter(instances, None) }

  // An answer is where a name is.
  predicate Says(rows: seq<nat>, answer: Answer, name: Option<seq<nat>>)
  {
    match name
    case None => answer == NoBoard
    case Some(value) => answer.Board? && answer.len == |value| && ValueAt(rows, answer.row, value)
  }

  lemma {:induction false} EntriesWalked(rows: seq<nat>, row: nat, entries: seq<Entry>, board: Answer,
                                         name: Option<seq<nat>>) returns (last: Answer)
    requires Rows(rows) && FIRST_ROW + 2 <= row <= AREA_END && board.InArea()
    requires EntriesAt(rows, row, entries) && Says(rows, board, name)
    ensures last.InArea() && Says(rows, last, NameIn(entries, name))
    ensures EntriesEnd(row, entries) <= AREA_END
    ensures WalkEntries(rows, row, board) == WalkEntries(rows, EntriesEnd(row, entries), last)
    decreases |entries|
  {
    if entries == [] {
      last := board;
    } else {
      var key, value := entries[0].key, entries[0].value;
      var next := NextRow(row, |value|);
      if key == KEY_BOARD {
        last := EntriesWalked(rows, next, entries[1..], Board(row + 2, |value|), Some(value));
      } else {
        last := EntriesWalked(rows, next, entries[1..], board, name);
      }
    }
  }

  // What walking one instance comes to.
  lemma InstanceWalked(rows: seq<nat>, boundary: nat, instance: Instance) returns (board: Answer)
    requires Rows(rows) && FIRST_ROW <= boundary && boundary % PAGE_ROWS == 0
    requires InstanceAt(rows, boundary, instance) && !instance.ending.NoVersion?
    ensures Says(rows, board, NameIn(instance.entries, None))
    ensures WalkEntries(rows, boundary + 2, NoBoard)
         == Walked(instance.ending.Signed?, board, LastRow(boundary, instance))
  {
    board := EntriesWalked(rows, boundary + 2, instance.entries, NoBoard, None);
  }

  lemma {:induction false} LastSignedFromFront(instances: seq<Instance>)
    requires instances != []
    ensures LastSigned(instances)
         == match LastSigned(instances[1..])
            case Some(k) => Some(k + 1)
            case None => if instances[0].ending.Signed? then Some(0) else None
    decreases |instances|
  {
    if |instances| > 1 {
      var front := instances[..|instances| - 1];
      LastSignedFromFront(front);
      assert instances[1..][..|instances| - 2] == front[1..];
    }
  }

  lemma {:induction false} InstancesWalked(rows: seq<nat>, boundary: nat, instances: seq<Instance>,
                                           found: Answer, name: Option<seq<nat>>)
    requires Rows(rows) && FIRST_ROW <= boundary && boundary % PAGE_ROWS == 0 && found.InArea()
    requires LaidOut(rows, boundary, instances) && Says(rows, found, name)
    ensures Says(rows, WalkFrom(rows, boundary, found), NameAfter(instances, name))
    decreases |instances|
  {
    if instances != [] {
      var first := instances[0];
      LastSignedFromFront(instances);
      var next := PageAfter(LastRow(boundary, first));
      if first.ending.NoVersion? {
        InstancesWalked(rows, next, instances[1..], found, name);
      } else {
        var board := InstanceWalked(rows, boundary, first);
        if first.ending.Signed? {
          InstancesWalked(rows, next, instances[1..], board, NameIn(first.entries, None));
        } else {
          InstancesWalked(rows, next, instances[1..], found, name);
        }
      }
    }
  }

  // On any area laid out by the rules, the walk finds the board of the last signed instance.
  lemma LastCompleteInstanceWins(rows: seq<nat>, instances: seq<Instance>)
    requires Rows(rows) && LaidOut(rows, FIRST_ROW, instances)
    ensures Says(rows, WalkFrom(rows, FIRST_ROW, NoBoard), Commissioned(instances))
  {
    InstancesWalked(rows, FIRST_ROW, instances, NoBoard, None);
  }

  // ---------------------------------------------------------------------------------------------
  // Appending an instance
  // ---------------------------------------------------------------------------------------------

  // Where the next instance would go.
  function NextBoundary(boundary: nat, instances: seq<Instance>): (next: nat)
    ensures next >= boundary && (boundary % PAGE_ROWS == 0 ==> next % PAGE_ROWS == 0)
    decreases |instances|
  {
    if instances == [] then boundary
    else NextBoundary(PageAfter(LastRow(boundary, instances[0])), instances[1..])
  }

  predicate Agree(rows: seq<nat>, others: seq<nat>, n: nat)
    requires Rows(rows) && Rows(others)
  {
    n <= AREA_END && forall i :: 0 <= i < n ==> rows[i] == others[i]
  }

  predicate Unwritten(rows: seq<nat>, from: nat)
    requires Rows(rows)
  {
    forall i :: from <= i < AREA_END ==> rows[i] == 0
  }

  lemma EntryKept(rows: seq<nat>, others: seq<nat>, row: nat, entry: Entry)
    requires Rows(rows) && Rows(others) && EntryAt(rows, row, entry)
    requires Agree(rows, others, NextRow(row, |entry.value|))
    ensures EntryAt(others, row, entry)
  {
    forall i | 0 <= i < |entry.value|
      ensures ByteAt(others, row + 2, i) == entry.value[i]
    {
      assert ByteAt(rows, row + 2, i) == entry.value[i];
    }
  }

  lemma {:induction false} EntriesKept(rows: seq<nat>, others: seq<nat>, row: nat, entries: seq<Entry>)
    requires Rows(rows) && Rows(others) && EntriesAt(rows, row, entries)
    requires Agree(rows, others, EntriesEnd(row, entries))
    ensures EntriesAt(others, row, entries)
    decreases |entries|
  {
    if entries != [] {
      EntryKept(rows, others, row, entries[0]);
      EntriesKept(rows, others, NextRow(row, |entries[0].value|), entries[1..]);
    }
  }

  lemma InstanceKept(rows: seq<nat>, others: seq<nat>, boundary: nat, instance: Instance)
    requires Rows(rows) && Rows(others) && InstanceAt(rows, boundary, instance)
    requires Agree(rows, others, LastRow(boundary, instance) + 1)
    ensures InstanceAt(others, boundary, instance)
  {
    var end := EntriesEnd(boundary + 2, instance.entries);
    if !instance.ending.NoVersion? {
      EntriesKept(rows, others, boundary + 2, instance.entries);
    }
    if instance.ending.Signed? {
      EntryKept(rows, others, end, Entry(KEY_SIG, instance.ending.signature));
    }
  }

  // One more instance after those laid out.
  lemma {:induction false} LaidOutAppend(rows: seq<nat>, others: seq<nat>, boundary: nat,
                                         instances: seq<Instance>, more: seq<Instance>)
    requires Rows(rows) && Rows(others) && LaidOut(rows, boundary, instances)
    requires Agree(rows, others, NextBoundary(boundary, instances))
    requires LaidOut(others, NextBoundary(boundary, instances), more)
    ensures LaidOut(others, boundary, instances + more)
    decreases |instances|
  {
    if instances == [] {
      assert instances + more == more;
    } else {
      InstanceKept(rows, others, boundary, instances[0]);
      LaidOutAppend(rows, others, PageAfter(LastRow(boundary, instances[0])), instances[1..], more);
      assert (instances + more)[1..] == instances[1..] + more;
    }
  }

  // Adding unsigned instances changes no answer.
  lemma {:induction false} UnsignedChangesNothing(instances: seq<Instance>, more: seq<Instance>)
    requires forall i :: 0 <= i < |more| ==> !more[i].ending.Signed?
    ensures LastSigned(instances + more) == LastSigned(instances)
    ensures Commissioned(instances + more) == Commissioned(instances)
    decreases |more|
  {
    if more == [] {
      assert instances + more == instances;
    } else {
      UnsignedChangesNothing(instances, more[..|more| - 1]);
      assert (instances + more)[..|instances| + |more| - 1] == instances + more[..|more| - 1];
    }
  }

  // The value that rows hold, whatever they hold.
  function ValueOf(rows: seq<nat>, row: nat, len: nat): (value: seq<nat>)
    requires Rows(rows) && row + (len + 1) / 2 <= AREA_END
    ensures |value| == len && ValueAt(rows, row, value)
  {
    seq(len, i requires 0 <= i < len => ByteAt(rows, row, i))
  }

  // Of entries written in row order and cut short, what is left is entries and then unwritten rows.
  lemma {:induction false} EntriesCut(full: seq<nat>, during: seq<nat>, row: nat, entries: seq<Entry>, cut: nat)
    returns (left: seq<Entry>)
    requires Rows(full) && Rows(during) && EntriesAt(full, row, entries)
    requires row <= cut <= EntriesEnd(row, entries) && EntriesEnd(row, entries) + 2 <= AREA_END
    requires Agree(full, during, cut) && Unwritten(during, cut)
    ensures EntriesAt(during, row, left)
    ensures cut <= EntriesEnd(row, left) + 1 && EntriesEnd(row, left) <= EntriesEnd(row, entries)
    ensures during[EntriesEnd(row, left)] == 0 && during[EntriesEnd(row, left) + 1] == 0
    decreases |entries|
  {
    if cut == row || (cut == row + 1 && during[row] == 0) {
      left := [];
    } else {
      var key, value := entries[0].key, entries[0].value;
      var next := NextRow(row, |value|);
      if next <= cut {
        EntryKept(full, during, row, entries[0]);
        left := EntriesCut(full, during, next, entries[1..], cut);
        left := [entries[0]] + left;
      } else {
        left := CutEntry(full, during, row, entries, cut);
      }
    }
  }

  lemma CutEntry(full: seq<nat>, during: seq<nat>, row: nat, entries: seq<Entry>, cut: nat)
    returns (left: seq<Entry>)
    requires Rows(full) && Rows(during) && EntriesAt(full, row, entries) && entries != []
    requires row < cut < NextRow(row, |entries[0].value|) && (cut == row + 1 ==> during[row] != 0)
    requires EntriesEnd(row, entries) + 2 <= AREA_END
    requires Agree(full, during, cut) && Unwritten(during, cut)
    ensures EntriesAt(during, row, left)
    ensures cut <= EntriesEnd(row, left) + 1 && EntriesEnd(row, left) <= EntriesEnd(row, entries)
    ensures during[EntriesEnd(row, left)] == 0 && during[EntriesEnd(row, left) + 1] == 0
  {
    var entry := Entry(entries[0].key, ValueOf(during, row + 2, if cut == row + 1 then 0 else |entries[0].value|));
    assert EntryAt(during, row, entry) && Ordinary(entry);
    left := [entry];
    assert left[1..] == [];
    assert EntriesEnd(row, left) == NextRow(row, |entry.value|);
  }

  // Of a signed instance written in row order and cut short before its signature's key, what is
  // left is an unsigned instance, or nothing.
  lemma InstanceCut(full: seq<nat>, during: seq<nat>, boundary: nat, instance: Instance, cut: nat)
    returns (left: seq<Instance>)
    requires Rows(full) && Rows(during) && InstanceAt(full, boundary, instance) && instance.ending.Signed?
    requires boundary <= cut <= EntriesEnd(boundary + 2, instance.entries)
    requires Agree(full, during, cut) && Unwritten(during, cut)
    ensures LaidOut(during, boundary, left) && forall i :: 0 <= i < |left| ==> !left[i].ending.Signed?
  {
    if cut == boundary {
      left := [];
    } else if cut == boundary + 1 {
      left := [Instance([], NoVersion)];
      assert LaidOut(during, PageAfter(boundary + 1), left[1..]);
    } else {
      var entries := EntriesCut(full, during, boundary + 2, instance.entries, cut);
      left := [Instance(entries, Stopped)];
      assert LaidOut(during, PageAfter(LastRow(boundary, left[0])), left[1..]);
    }
  }

  // Commissioning a board again is safe to interrupt: wherever the new instance's writing stops
  // before its signature's key, the board found is the one commissioned before.
  lemma InterruptedAppendChangesNothing(rows: seq<nat>, full: seq<nat>, during: seq<nat>,
                                        instances: seq<Instance>, instance: Instance, cut: nat)
    requires Rows(rows) && Rows(full) && Rows(during) && LaidOut(rows, FIRST_ROW, instances)
    requires var boundary := NextBoundary(FIRST_ROW, instances);
      && Agree(rows, full, boundary) && InstanceAt(full, boundary, instance) && instance.ending.Signed?
      && boundary <= cut <= EntriesEnd(boundary + 2, instance.entries)
    requires Agree(full, during, cut) && Unwritten(during, cut)
    ensures Says(during, WalkFrom(during, FIRST_ROW, NoBoard), Commissioned(instances))
    ensures Says(rows, WalkFrom(rows, FIRST_ROW, NoBoard), Commissioned(instances))
  {
    var left := InstanceCut(full, during, NextBoundary(FIRST_ROW, instances), instance, cut);
    AppendUnsigned(rows, during, instances, left);
    LastCompleteInstanceWins(rows, instances);
  }

  lemma AppendUnsigned(rows: seq<nat>, others: seq<nat>, instances: seq<Instance>, more: seq<Instance>)
    requires Rows(rows) && Rows(others) && LaidOut(rows, FIRST_ROW, instances)
    requires Agree(rows, others, NextBoundary(FIRST_ROW, instances))
    requires LaidOut(others, NextBoundary(FIRST_ROW, instances), more)
    requires forall i :: 0 <= i < |more| ==> !more[i].ending.Signed?
    ensures Says(others, WalkFrom(others, FIRST_ROW, NoBoard), Commissioned(instances))
  {
    LaidOutAppend(rows, others, FIRST_ROW, instances, more);
    UnsignedChangesNothing(instances, more);
    LastCompleteInstanceWins(others, instances + more);
  }

  // Of one cut short after its signature's key, what is left is a signed instance.
  lemma SignatureCut(full: seq<nat>, during: seq<nat>, boundary: nat, instance: Instance, cut: nat)
    returns (left: Instance)
    requires Rows(full) && Rows(during) && InstanceAt(full, boundary, instance) && instance.ending.Signed?
    requires EntriesEnd(boundary + 2, instance.entries) < cut <= LastRow(boundary, instance) + 1
    requires Agree(full, during, cut) && Unwritten(during, cut)
    ensures left.ending.Signed? && left.entries == instance.entries && LaidOut(during, boundary, [left])
  {
    var end := EntriesEnd(boundary + 2, instance.entries);
    EntriesKept(full, during, boundary + 2, instance.entries);
    left := Instance(instance.entries, Signed(ValueOf(during, end + 2, during[end + 1])));
    assert EntryAt(during, end, Entry(KEY_SIG, left.ending.signature));
    assert [left][1..] == [];
    assert LaidOut(during, PageAfter(LastRow(boundary, left)), []);
  }

  // From its signature's key on, the new instance is the one that counts.
  lemma SignatureKeyCommits(rows: seq<nat>, full: seq<nat>, during: seq<nat>,
                            instances: seq<Instance>, instance: Instance, cut: nat)
    requires Rows(rows) && Rows(full) && Rows(during) && LaidOut(rows, FIRST_ROW, instances)
    requires var boundary := NextBoundary(FIRST_ROW, instances);
      && Agree(rows, full, boundary) && InstanceAt(full, boundary, instance) && instance.ending.Signed?
      && EntriesEnd(boundary + 2, instance.entries) < cut <= LastRow(boundary, instance) + 1
    requires Agree(full, during, cut) && Unwritten(during, cut)
    ensures Says(during, WalkFrom(during, FIRST_ROW, NoBoard), NameIn(instance.entries, None))
  {
    var left := SignatureCut(full, during, NextBoundary(FIRST_ROW, instances), instance, cut);
    LaidOutAppend(rows, during, FIRST_ROW, instances, [left]);
    LastCompleteInstanceWins(during, instances + [left]);
  }

  // An instance whose entries leave one row of the area ends the walk with no board.
  lemma OneRowLeftHidesAll(rows: seq<nat>, boundary: nat, entries: seq<Entry>, found: Answer)
    requires Rows(rows) && FIRST_ROW <= boundary < AREA_END && boundary % PAGE_ROWS == 0 && found.InArea()
    requires rows[boundary] == MAGIC && rows[boundary + 1] == VERSION
    requires EntriesAt(rows, boundary + 2, entries) && EntriesEnd(boundary + 2, entries) == AREA_END - 1
    ensures WalkFrom(rows, boundary, found) == NoBoard
  {
    var last := EntriesWalked(rows, boundary + 2, entries, NoBoard, None);
  }

  // The walk gets past instances laid out, to where the next would go.
  lemma {:induction false} WalkReaches(rows: seq<nat>, others: seq<nat>, boundary: nat,
                                       instances: seq<Instance>, found: Answer)
    returns (reached: Answer)
    requires Rows(rows) && Rows(others) && LaidOut(rows, boundary, instances)
    requires Agree(rows, others, NextBoundary(boundary, instances))
    requires FIRST_ROW <= boundary && boundary % PAGE_ROWS == 0 && found.InArea()
    ensures reached.InArea()
    ensures WalkFrom(others, boundary, found) == WalkFrom(others, NextBoundary(boundary, instances), reached)
    decreases |instances|
  {
    if instances == [] {
      reached := found;
    } else {
      var first := instances[0];
      var next := PageAfter(LastRow(boundary, first));
      InstanceKept(rows, others, boundary, first);
      var board := found;
      if !first.ending.NoVersion? {
        board := InstanceWalked(others, boundary, first);
      }
      reached := WalkReaches(rows, others, next, instances[1..], if first.ending.Signed? then board else found);
    }
  }

  // An instance at a boundary that has its magic, its version and its entries, and then nothing.
  predicate UnsignedAt(rows: seq<nat>, boundary: nat, entries: seq<Entry>)
    requires Rows(rows)
  {
    && boundary + 2 <= AREA_END && rows[boundary] == MAGIC && rows[boundary + 1] == VERSION
    && EntriesAt(rows, boundary + 2, entries)
    && EntriesEnd(boundary + 2, entries) <= AREA_END && Unwritten(rows, EntriesEnd(boundary + 2, entries))
  }

  // Appending an instance without a signature leaves the answer as it was if and only if its
  // entries do not end one row short of the area, or there was no board to lose.
  lemma UnsignedAppendIff(rows: seq<nat>, others: seq<nat>, instances: seq<Instance>, entries: seq<Entry>)
    requires Rows(rows) && Rows(others) && LaidOut(rows, FIRST_ROW, instances)
    requires var boundary := NextBoundary(FIRST_ROW, instances);
      Agree(rows, others, boundary) && UnsignedAt(others, boundary, entries)
    ensures Says(others, WalkFrom(others, FIRST_ROW, NoBoard), Commissioned(instances))
       <==> EntriesEnd(NextBoundary(FIRST_ROW, instances) + 2, entries) != AREA_END - 1
            || Commissioned(instances).None?
  {
    var boundary := NextBoundary(FIRST_ROW, instances);
    var end := EntriesEnd(boundary + 2, entries);
    if end == AREA_END - 1 {
      var found := WalkReaches(rows, others, FIRST_ROW, instances, NoBoard);
      OneRowLeftHidesAll(others, boundary, entries, found);
    } else {
      var left := [Instance(entries, if end == AREA_END then AtAreaEnd else Stopped)];
      assert left[1..] == [];
      assert LaidOut(others, PageAfter(LastRow(boundary, left[0])), []);
      AppendUnsigned(rows, others, instances, left);
    }
  }

  // A chip commissioned as AB, in an instance that fills the area up to its last page, and then an
  // instance in that page, interrupted after an entry that leaves the area's last row.
  function ExampleRow(i: nat, interrupted: bool): nat
  {
    if i == 0x0c0 then MAGIC
    else if i == 0x0c1 then VERSION
    else if i == 0x0c2 then KEY_BOARD
    else if i == 0x0c3 then 2
    else if i == 0x0c4 then 0x4241
    else if i == 0x0c5 then 3
    else if i == 0x0c6 then 0x6f2
    else if i == 0x440 then KEY_SIG
    else if i == 0x441 then 64
    else if interrupted && i == 0x480 then MAGIC
    else if interrupted && i == 0x481 then VERSION
    else if interrupted && i == 0x482 then 5
    else if interrupted && i == 0x483 then 0x76
    else 0
  }

  function ExampleRows(interrupted: bool): (rows: seq<nat>)
    ensures Rows(rows)
  {
    seq(AREA_END, i requires 0 <= i < AREA_END => ExampleRow(i, interrupted))
  }

  function ExampleInstance(): Instance
  {
    Instance([Entry(KEY_BOARD, [0x41, 0x42]), Entry(3, seq(0x6f2, _ => 0))], Signed(seq(64, _ => 0)))
  }

  lemma ExampleLaidOut()
    ensures LaidOut(ExampleRows(false), FIRST_ROW, [ExampleInstance()])
    ensures NextBoundary(FIRST_ROW, [ExampleInstance()]) == 0x480
    ensures Commissioned([ExampleInstance()]) == Some([0x41, 0x42])
  {
    var rows, instance := ExampleRows(false), ExampleInstance();
    var entries := instance.entries;
    assert entries[1..] == [entries[1]] && entries[1..][1..] == [];
    assert EntryAt(rows, 0x0c2, entries[0]) && EntryAt(rows, 0x0c5, entries[1]);
    assert EntriesEnd(0x0c5, entries[1..]) == 0x440 && EntriesEnd(0x0c2, entries) == 0x440;
    assert EntriesAt(rows, 0x440, []) && EntriesAt(rows, 0x0c5, entries[1..]);
    assert InstanceAt(rows, FIRST_ROW, instance);
    assert [instance][1..] == [] && LaidOut(rows, 0x480, []);
    assert LastSigned([instance]) == Some(0);
    assert NameIn(entries[1..], Some([0x41, 0x42])) == NameIn([], Some([0x41, 0x42]));
  }

  lemma ExampleInterrupted(entries: seq<Entry>)
    requires entries == [Entry(5, seq(0x76, _ => 0))]
    ensures UnsignedAt(ExampleRows(true), 0x480, entries) && EntriesEnd(0x482, entries) == AREA_END - 1
    ensures Agree(ExampleRows(false), ExampleRows(true), 0x480)
  {
    assert entries[1..] == [] && EntryAt(ExampleRows(true), 0x482, entries[0]);
    assert EntriesAt(ExampleRows(true), 0x4bf, []);
  }

  // The firmware then finds no board, although the chip is commissioned as AB and the instance
  // that was interrupted has no signature.
  lemma OneRowLeftExample(entries: seq<Entry>)
    requires entries == [Entry(5, seq(0x76, _ => 0))]
    ensures LaidOut(ExampleRows(false), FIRST_ROW, [ExampleInstance()])
    ensures Commissioned([ExampleInstance()]) == Some([0x41, 0x42])
    ensures UnsignedAt(ExampleRows(true), 0x480, entries)
    ensures WalkFrom(ExampleRows(true), FIRST_ROW, NoBoard) == NoBoard
  {
    ExampleLaidOut();
    ExampleInterrupted(entries);
    var found := WalkReaches(ExampleRows(false), ExampleRows(true), FIRST_ROW, [ExampleInstance()], NoBoard);
    OneRowLeftHidesAll(ExampleRows(true), 0x480, entries, found);
  }

  // ---------------------------------------------------------------------------------------------
  // The mismatch
  // ---------------------------------------------------------------------------------------------

  predicate Bytes(name: seq<nat>) { forall i :: 0 <= i < |name| ==> name[i] < 256 }

  // The first n bytes of a value.
  predicate Matches(rows: seq<nat>, row: nat, name: seq<nat>, n: nat)
    requires n <= |name|
  {
    row + (|name| + 1) / 2 <= |rows| && forall i :: 0 <= i < n ==> ByteAt(rows, row, i) == name[i]
  }

  // A row that differs from the name, in either byte of it.
  function RowDiffers(value: nat, name: seq<nat>, ii: nat): bool
    requires ii < |name|
  {
    name[ii] != value % 256 || (ii + 1 < |name| && name[ii + 1] != value / 256)
  }

  lemma RowCompared(rows: seq<nat>, row: nat, name: seq<nat>, ii: nat)
    requires Rows(rows) && ii < |name| && ii % 2 == 0 && Matches(rows, row, name, ii)
    requires row + (|name| + 1) / 2 <= AREA_END
    ensures var next := if ii + 2 < |name| then ii + 2 else |name|;
      if RowDiffers(rows[row + ii / 2], name, ii) then !ValueAt(rows, row, name)
      else Matches(rows, row, name, next)
  {
    assert ByteAt(rows, row, ii) == rows[row + ii / 2] % 256;
    if ii + 1 < |name| {
      assert (ii + 1) / 2 == ii / 2 && (ii + 1) % 2 == 1;
      assert ByteAt(rows, row, ii + 1) == rows[row + ii / 2] / 256;
    }
  }

  // No metadata board name is a null pointer, or an unprogrammed one.
  method BoardMismatch(rows: seq<nat>, hwRev: Option<seq<nat>>) returns (mismatch: bool)
    requires Rows(rows) && (hwRev.Some? ==> Bytes(hwRev.value))
    ensures mismatch <==>
      var answer := WalkFrom(rows, FIRST_ROW, NoBoard);
      answer.Board? && hwRev.Some? && !(answer.len == |hwRev.value| && ValueAt(rows, answer.row, hwRev.value))
  {
    var found, row, len := CommissionedBoard(rows);
    if !found { return false; }
    if hwRev.None? { return false; }
    mismatch := DiffersFrom(rows, row, len, hwRev.value);
  }

  method DiffersFrom(rows: seq<nat>, row: nat, len: nat, name: seq<nat>) returns (mismatch: bool)
    requires Rows(rows) && Bytes(name) && Board(row, len).InArea()
    ensures mismatch <==> !(len == |name| && ValueAt(rows, row, name))
  {
    mismatch := |name| != len;
    var ii := 0;
    while !mismatch && ii < len
      invariant ii % 2 == 0
      invariant !mismatch ==> |name| == len && Matches(rows, row, name, if ii < len then ii else len)
      invariant mismatch ==> !(len == |name| && ValueAt(rows, row, name))
      decreases len - ii
    {
      RowCompared(rows, row, name, ii);
      var value := ReadEcc(rows, row + ii / 2);
      mismatch := RowDiffers(value, name, ii);
      ii := ii + 2;
    }
  }

  // So the boot check fails exactly when the last signed instance and the metadata both name a
  // board, and not the same one.
  lemma MismatchIffNamesDiffer(rows: seq<nat>, hwRev: Option<seq<nat>>, instances: seq<Instance>)
    requires Rows(rows) && LaidOut(rows, FIRST_ROW, instances)
    ensures var answer := WalkFrom(rows, FIRST_ROW, NoBoard);
      (answer.Board? && hwRev.Some? && !(answer.len == |hwRev.value| && ValueAt(rows, answer.row, hwRev.value)))
      <==> hwRev.Some? && Commissioned(instances).Some? && Commissioned(instances) != hwRev
  {
    LastCompleteInstanceWins(rows, instances);
    var answer, name := WalkFrom(rows, FIRST_ROW, NoBoard), Commissioned(instances);
    if name.Some? && hwRev.Some? && |hwRev.value| == answer.len && ValueAt(rows, answer.row, hwRev.value) {
      OneValue(rows, answer.row, name.value, hwRev.value);
    }
  }

  lemma OneValue(rows: seq<nat>, row: nat, value: seq<nat>, other: seq<nat>)
    requires |value| == |other| && ValueAt(rows, row, value) && ValueAt(rows, row, other)
    ensures value == other
  {
    forall i | 0 <= i < |value|
      ensures value[i] == other[i]
    {
      assert ByteAt(rows, row, i) == value[i];
    }
  }
}
