/** The local roster screen (app/attendance/index.tsx): a fixed list of registration
    numbers, each shown red (absent) or green (present). A scanned registration number is
    trimmed and upper-cased and marks the first matching student green; tapping a student
    flips red and green. Every change is written to local storage, modelled here by a ghost
    copy of the roster last saved. */
module Roster {
  import opened Wrappers
  import opened Strings

  const Red := "red"
  const Green := "green"

  datatype Student = Student(regNo: string, color: string)

  /** The roster the screen starts with: four distinct registration numbers, all red. */
  function InitialRoster(): (r: seq<Student>)
    ensures |r| == 4
    ensures forall i :: 0 <= i < |r| ==> r[i].color == Red
    ensures forall i, j :: 0 <= i < j < |r| ==> Upper(r[i].regNo) != Upper(r[j].regNo)
  {
    var r := [
      Student("RA2211003010663", Red),
      Student("RA2211003010686", Red),
      Student("RA2211003010660", Red),
      Student("RA2211003010661", Red)
    ];
    assert forall i :: 0 <= i < 4 ==> |Upper(r[i].regNo)| == 15 && Upper(r[i].regNo)[14] == r[i].regNo[14];
    assert forall i :: 0 <= i < 4 ==> Upper(r[i].regNo)[13] == r[i].regNo[13];
    r
  }

  /** The scanned value as it is compared: trimmed, then upper-cased. */
  function Normalize(scanned: string): (key: string)
    ensures |key| <= |scanned|
    ensures forall i :: 0 <= i < |key| ==> !('a' <= key[i] <= 'z')
    ensures NoSpaces(scanned) ==> key == Upper(scanned)
  {
    var t := Trim(scanned);
    assert NoSpaces(scanned) ==> t == scanned by {
      if NoSpaces(scanned) {
        TrimKeepsClean(scanned);
      }
    }
    Upper(t)
  }

  /** A scan padded with whitespace is compared as its upper-cased core. */
  lemma NormalizePadded(w1: string, s: string, w2: string)
    requires AllSpaces(w1) && AllSpaces(w2)
    requires s != [] ==> !IsSpace(s[0]) && !IsSpace(s[|s| - 1])
    ensures Normalize(w1 + s + w2) == Upper(s)
  {
    TrimPadded(w1, s, w2);
  }

  /** `students.findIndex(s => s.regNo.toUpperCase() === key)`: the first matching index,
      or -1 when no student matches. */
  function FindIndex(students: seq<Student>, key: string): (r: int)
    ensures -1 <= r < |students|
    ensures r == -1 <==> forall i :: 0 <= i < |students| ==> Upper(students[i].regNo) != key
    ensures r >= 0 ==> Upper(students[r].regNo) == key
    ensures r >= 0 ==> forall i :: 0 <= i < r ==> Upper(students[i].regNo) != key
  {
    if students == [] then -1
    else if Upper(students[0].regNo) == key then 0
    else
      var r := FindIndex(students[1..], key);
      if r < 0 then -1 else r + 1
  }

  /** The search looks at registration numbers only, so recolouring changes no answer. */
  lemma {:induction false} FindIndexIgnoresColor(students: seq<Student>, other: seq<Student>, key: string)
    requires |other| == |students|
    requires forall i :: 0 <= i < |students| ==> other[i].regNo == students[i].regNo
    ensures FindIndex(other, key) == FindIndex(students, key)
  {
    if students != [] {
      FindIndexIgnoresColor(students[1..], other[1..], key);
    }
  }

  /** `students.map((s, i) => i === index ? { ...s, color } : s)` */
  function Paint(students: seq<Student>, index: int, color: string): (r: seq<Student>)
    ensures |r| == |students|
    ensures forall i :: 0 <= i < |students| && i != index ==> r[i] == students[i]
    ensures 0 <= index < |students| ==> r[index] == students[index].(color := color)
  {
    seq(|students|, i requires 0 <= i < |students| =>
      if i == index then students[i].(color := color) else students[i])
  }

  /** What `handleQrScan` reports. */
  datatype ScanNotice = Marked | AlreadyMarked | NoMatch

  /** `handleQrScan` once the scanned value is normalized to `key`: the roster afterwards
      and the notice. Only the first student whose registration number matches is
      considered; it turns green unless it already is. */
  function ScanKey(students: seq<Student>, key: string): (r: (seq<Student>, ScanNotice))
    ensures |r.0| == |students|
    ensures forall i :: 0 <= i < |students| ==> r.0[i].regNo == students[i].regNo
    ensures var k := FindIndex(students, key);
            && (r.1 == NoMatch <==> k == -1)
            && (r.1 == AlreadyMarked <==> k >= 0 && students[k].color == Green)
            && (r.1 == Marked ==> r.0 == students[k := students[k].(color := Green)])
            && (r.1 != Marked ==> r.0 == students)
  {
    var k := FindIndex(students, key);
    if k == -1 then (students, NoMatch)
    else if students[k].color == Green then (students, AlreadyMarked)
    else
      var painted := Paint(students, k, Green);
      assert painted == students[k := students[k].(color := Green)];
      (painted, Marked)
  }

  /** `handleQrScan`: the scanned value is trimmed and upper-cased before the search. */
  function ScanRoster(students: seq<Student>, scanned: string): (r: (seq<Student>, ScanNotice))
    ensures |r.0| == |students|
    ensures forall i :: 0 <= i < |students| ==> r.0[i].regNo == students[i].regNo
    ensures r.1 == NoMatch <==> forall i :: 0 <= i < |students| ==> Upper(students[i].regNo) != Normalize(scanned)
    ensures r.1 != Marked ==> r.0 == students
  {
    ScanKey(students, Normalize(scanned))
  }

  /** Scanning the same registration number twice leaves the roster as scanning it once. */
  lemma ScanTwice(students: seq<Student>, scanned: string)
    ensures var once := ScanRoster(students, scanned).0;
            ScanRoster(once, scanned).0 == once
  {
    ScanKeyTwice(students, Normalize(scanned));
  }

  lemma ScanKeyTwice(students: seq<Student>, key: string)
    ensures var once := ScanKey(students, key).0;
            ScanKey(once, key) == (once, if FindIndex(students, key) == -1 then NoMatch else AlreadyMarked)
  {
    var once := ScanKey(students, key).0;
    FindIndexIgnoresColor(students, once, key);
    var k := FindIndex(students, key);
    if k >= 0 {
      assert once[k].color == Green;
    }
  }

  /** The tap handler's colour rule: red turns green, anything else turns red. */
  function Flip(color: string): (c: string)
    ensures c == Green <==> color == Red
    ensures c == Red || c == Green
  {
    if color == Red then Green else Red
  }

  /** `toggleAttendance(index)`: only student `index` changes colour; an index outside
      the roster changes nothing. */
  function Toggled(students: seq<Student>, index: int): (r: seq<Student>)
    ensures |r| == |students|
    ensures forall i :: 0 <= i < |students| && i != index ==> r[i] == students[i]
    ensures 0 <= index < |students| ==> r[index].regNo == students[index].regNo
    ensures 0 <= index < |students| ==> r[index].color == Flip(students[index].color)
  {
    seq(|students|, i requires 0 <= i < |students| =>
      if i == index then students[i].(color := Flip(students[i].color)) else students[i])
  }

  /** Tapping a red or green student twice restores the roster. */
  lemma ToggleTwice(students: seq<Student>, index: int)
    requires 0 <= index < |students| ==> students[index].color in {Red, Green}
    ensures Toggled(Toggled(students, index), index) == students
  {
    var r := Toggled(Toggled(students, index), index);
    assert forall i :: 0 <= i < |students| ==> r[i] == students[i];
  }

  class AttendanceScreen {
    var students: seq<Student>
    ghost var saved: Option<seq<Student>>   // the roster last written to storage

    constructor ()
      ensures students == InitialRoster() && saved == None
    {
      students := InitialRoster();
      saved := None;
    }

    /** `loadAttendance`, given the roster parsed from storage, if one was stored. */
    method LoadAttendance(stored: Option<seq<Student>>)
      modifies this`students
      ensures students == if stored.Some? then stored.value else old(students)
    {
      if stored.Some? {
        students := stored.value;
      }
    }

    /** `handleQrScan`: a change is saved; a notice alone is not. */
    method HandleQrScan(scanned: string) returns (notice: ScanNotice)
      modifies this
      ensures (students, notice) == ScanRoster(old(students), scanned)
      ensures saved == if notice == Marked then Some(students) else old(saved)
    {
      var key := Normalize(scanned);
      var index := FindIndex(students, key);
      if index != -1 {
        if students[index].color == Green {
          notice := AlreadyMarked;
        } else {
          students := Paint(students, index, Green);
          saved := Some(students);
          notice := Marked;
        }
      } else {
        notice := NoMatch;
      }
    }

    /** `toggleAttendance`: the roster with one colour flipped, saved. */
    method ToggleAttendance(index: int)
      modifies this
      ensures students == Toggled(old(students), index)
      ensures saved == Some(students)
    {
      students := Toggled(students, index);
      saved := Some(students);
    }
  }
}
