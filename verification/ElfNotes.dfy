/** Finding a kernel's PVH entry point among its ELF notes. */
module ElfNotes {
  import opened Acpi
  import opened Aml
  import opened Basics

  const PHYS32_ENTRY := 18
  const NOTE_HEADER := 12
  const U32_SIZE := 0x1_0000_0000

  datatype Note = Note(name: Bytes, desc: Bytes, kind: nat)

  /** Names and descriptions are padded to four bytes. */
  function Padded(n: nat): (r: nat)
    ensures n <= r < n + 4
  {
    (n + 3) / 4 * 4
  }

  predicate IsEntry(note: Note) {
    note.kind == PHYS32_ENTRY && |note.name| == 4 && Ascii("Xen") <= note.name && (|note.desc| == 4 || |note.desc| == 8)
  }

  function Entry(note: Note): nat { FromLittleEndian(note.desc) % U32_SIZE }

  /** The note a blob starts with, and how long it is; nothing if it is cut short. */
  function ReadNote(b: Bytes): (r: Option<(Note, nat)>)
    ensures r.Some? ==> NOTE_HEADER <= r.value.1 <= |b|
  {
    if |b| < NOTE_HEADER then None
    else
      var nameSize, descSize := U32At(b, 0), U32At(b, 4);
      var desc := NOTE_HEADER + Padded(nameSize);
      var end := desc + Padded(descSize);
      if end > |b| then None
      else Some((Note(b[NOTE_HEADER..NOTE_HEADER + nameSize], b[desc..desc + descSize], U32At(b, 8)), end))
  }

  /** The entry point in the first note that has one. */
  function Scan(b: Bytes): Option<nat>
    decreases |b|
  {
    var r := ReadNote(b);
    if r.None? then None
    else if IsEntry(r.value.0) then Some(Entry(r.value.0))
    else Scan(b[r.value.1..])
  }

  /** The loader's loop over the offsets of the notes. */
  method FindPvhNote(blob: Bytes) returns (entry: Option<nat>)
    ensures entry == Scan(blob)
  {
    hide ReadNote, IsEntry, Entry;
    var off := 0;
    assert blob[0..] == blob;
    while off + NOTE_HEADER <= |blob|
      invariant off <= |blob| && Scan(blob[off..]) == Scan(blob)
      decreases |blob| - off
    {
      var rest := blob[off..];
      var r := ReadNote(rest);
      if r.None? {
        return None;
      }
      if IsEntry(r.value.0) {
        return Some(Entry(r.value.0));
      }
      assert rest[r.value.1..] == blob[off + r.value.1..];
      off := off + r.value.1;
    }
    TooShort(blob[off..]);
    entry := None;
  }

  lemma TooShort(b: Bytes)
    requires |b| < NOTE_HEADER
    ensures Scan(b) == None
  {
  }

  // ---- As the linker lays notes out ----

  predicate Fits(note: Note) { |note.name| < U32_SIZE && |note.desc| < U32_SIZE && note.kind < U32_SIZE }

  function Fill(s: Bytes): (r: Bytes)
    ensures |r| == Padded(|s|) && r[..|s|] == s
  {
    s + seq(Padded(|s|) - |s|, _ => 0)
  }

  function NoteBytes(note: Note): (r: Bytes)
    ensures |r| == NOTE_HEADER + Padded(|note.name|) + Padded(|note.desc|)
  {
    Le32(|note.name|) + Le32(|note.desc|) + Le32(note.kind) + Fill(note.name) + Fill(note.desc)
  }

  function AllBytes(notes: seq<Note>): Bytes {
    if notes == [] then [] else NoteBytes(notes[0]) + AllBytes(notes[1..])
  }

  lemma NoteReadsBack(note: Note, rest: Bytes)
    requires Fits(note)
    ensures ReadNote(NoteBytes(note) + rest) == Some((note, |NoteBytes(note)|))
  {
    hide LittleEndian, FromLittleEndian, Fill, Padded;
    var b := NoteBytes(note) + rest;
    Powers();
    LittleEndianRoundTrip(|note.name|, 4);
    LittleEndianRoundTrip(|note.desc|, 4);
    LittleEndianRoundTrip(note.kind, 4);
    assert b[0..4] == Le32(|note.name|) && b[4..8] == Le32(|note.desc|) && b[8..12] == Le32(note.kind);
    var desc := NOTE_HEADER + Padded(|note.name|);
    assert b[NOTE_HEADER..desc] == Fill(note.name) && b[desc..desc + Padded(|note.desc|)] == Fill(note.desc);
    assert b[NOTE_HEADER..NOTE_HEADER + |note.name|] == Fill(note.name)[..|note.name|];
    assert b[desc..desc + |note.desc|] == Fill(note.desc)[..|note.desc|];
  }

  function FirstEntry(notes: seq<Note>): Option<nat> {
    if notes == [] then None else if IsEntry(notes[0]) then Some(Entry(notes[0])) else FirstEntry(notes[1..])
  }

  /** Whatever the notes before it hold, the entry point found is the first entry note's, and none if there is none. */
  lemma {:induction false} EntryFound(notes: seq<Note>, tail: Bytes)
    requires (forall i :: 0 <= i < |notes| ==> Fits(notes[i])) && |tail| < NOTE_HEADER
    ensures Scan(AllBytes(notes) + tail) == FirstEntry(notes)
  {
    hide ReadNote, IsEntry, Entry, NoteBytes;
    if notes == [] {
      assert AllBytes(notes) + tail == tail;
      TooShort(tail);
    } else {
      var rest := AllBytes(notes[1..]) + tail;
      NoteReadsBack(notes[0], rest);
      var b := NoteBytes(notes[0]) + rest;
      assert AllBytes(notes) + tail == b && b[|NoteBytes(notes[0])|..] == rest;
      EntryFound(notes[1..], tail);
    }
  }

  /** The entry note in plain bytes: type 18, the four-byte name "Xen" and any fourth byte, an address of 4 or 8 bytes. */
  lemma XenNote(v: nat, wide: bool, end: byte, tail: Bytes)
    requires v < (if wide then Power256(8) else Power256(4)) && |tail| < 12
    ensures var desc := if wide then Le64(v) else Le32(v);
            Scan([4, 0, 0, 0] + Le32(|desc|) + [18, 0, 0, 0] + [0x58, 0x65, 0x6E, end] + desc + tail) == Some(v % 0x1_0000_0000)
  {
    hide LittleEndian, FromLittleEndian, Power256, Scan;
    var desc := if wide then Le64(v) else Le32(v);
    var note := Note([0x58, 0x65, 0x6E, end], desc, 18);
    XenName(end);
    LittleEndianRoundTrip(v, |desc|);
    NoFill(note.name);
    NoFill(desc);
    SmallWords();
    EntryFound([note], tail);
    OneNote(note);
    var b := [4, 0, 0, 0] + Le32(|desc|) + [18, 0, 0, 0] + [0x58, 0x65, 0x6E, end] + desc + tail;
    assert AllBytes([note]) + tail == b;
  }

  lemma OneNote(note: Note)
    ensures AllBytes([note]) == NoteBytes(note) && FirstEntry([note]) == if IsEntry(note) then Some(Entry(note)) else None
  {
    hide NoteBytes, IsEntry, Entry;
    assert [note][1..] == [] && AllBytes([]) == [];
  }

  lemma XenName(end: byte)
    ensures Ascii("Xen") <= [0x58, 0x65, 0x6E, end]
  {
    assert Ascii("Xen") == [0x58, 0x65, 0x6E];
  }

  lemma NoFill(s: Bytes)
    requires |s| == 4 || |s| == 8
    ensures Fill(s) == s
  {
  }

  lemma SmallWords()
    ensures Le32(4) == [4, 0, 0, 0] && Le32(18) == [18, 0, 0, 0]
  {
    FourBytes(4);
    FourBytes(18);
  }

  /** A note of another type, another name or another size of address is passed over. */
  lemma OtherNotes(note: Note, rest: Bytes)
    requires Fits(note)
    requires note.kind != 18 || |note.name| != 4 || note.name[..3] != [0x58, 0x65, 0x6E] || (|note.desc| != 4 && |note.desc| != 8)
    ensures Scan(NoteBytes(note) + rest) == Scan(rest)
  {
    hide NoteBytes, ReadNote, Entry;
    NoteReadsBack(note, rest);
    assert Ascii("Xen") == [0x58, 0x65, 0x6E];
    assert (NoteBytes(note) + rest)[|NoteBytes(note)|..] == rest;
  }
}
