/**
 The string blob of the debug data: strings are stored one after the other, each with a NUL
 behind it, and are referred to by their number.
 */
module StringTable {
  import opened Sequences

  const NUL: char := '\0'

  datatype Offsets = NotTerminated | At(offsets: seq<nat>)

  function BlobOf(strings: seq<string>): string {
    if strings == [] then [] else strings[0] + [NUL] + BlobOf(strings[1..])
  }

  predicate NulFree(s: string) {
    NUL !in s
  }

  // ---------------------------------------------------------------------------------------
  // Reading
  // ---------------------------------------------------------------------------------------

  /** The C string that starts a buffer. */
  function CString(s: string): (r: string)
    ensures NulFree(r)
  {
    if s == [] || s[0] == NUL then [] else [s[0]] + CString(s[1..])
  }

  /** The position of the first NUL from `offset` on, or the end. */
  function FindNul(blob: string, offset: nat): (pos: nat)
    requires offset <= |blob|
    ensures offset <= pos <= |blob|
    decreases |blob| - offset
  {
    if offset == |blob| || blob[offset] == NUL then offset else FindNul(blob, offset + 1)
  }

  /** Where the strings start, from `offset` on. */
  function OffsetsFrom(blob: string, offset: nat): Offsets
    requires offset <= |blob|
    decreases |blob| - offset
  {
    if offset == |blob| then At([])
    else
      var next := FindNul(blob, offset);
      if next == |blob| then NotTerminated
      else
        Prepend([offset], OffsetsFrom(blob, next + 1))
  }

  function Prepend(offsets: seq<nat>, r: Offsets): Offsets {
    if r.NotTerminated? then NotTerminated else At(offsets + r.offsets)
  }

  lemma PrependOne(offsets: seq<nat>, offset: nat, r: Offsets)
    ensures Prepend(offsets, Prepend([offset], r)) == Prepend(offsets + [offset], r)
  {
    if r.At? {
      Associative(offsets, [offset], r.offsets);
    }
  }

  /** The loop that collects the offsets. */
  method ParseOffsets(blob: string) returns (r: Offsets)
    ensures r == OffsetsFrom(blob, 0)
  {
    var offsets: seq<nat> := [];
    var offset := 0;
    while offset < |blob|
      invariant offset <= |blob|
      invariant OffsetsFrom(blob, 0) == Prepend(offsets, OffsetsFrom(blob, offset))
    {
      var next := FindNul(blob, offset);
      if next == |blob| {
        return NotTerminated;
      }
      PrependOne(offsets, offset, OffsetsFrom(blob, next + 1));
      offsets := offsets + [offset];
      offset := next + 1;
    }
    EmptyUnit(offsets);
    return At(offsets);
  }

  /** String number `i`, as `GraphDebugData::string` finds it. */
  function StringAt(blob: string, offsets: seq<nat>, i: nat): string
    requires i < |offsets| && offsets[i] <= |blob|
  {
    CString(blob[offsets[i]..])
  }

  /** The offsets are good, and string `i` reads back as `strings[i]`. */
  predicate ReadsBack(blob: string, strings: seq<string>) {
    match OffsetsFrom(blob, 0)
    case NotTerminated => false
    case At(offsets) =>
      && |offsets| == |strings|
      && forall i | 0 <= i < |strings| :: offsets[i] <= |blob| && StringAt(blob, offsets, i) == strings[i]
  }

  /** Collecting the offsets fails exactly when the last string has no NUL behind it. */
  lemma {:induction false} NotTerminatedIff(blob: string, offset: nat)
    requires offset <= |blob|
    ensures OffsetsFrom(blob, offset).NotTerminated? <==> offset < |blob| && blob[|blob| - 1] != NUL
    decreases |blob| - offset
  {
    if offset < |blob| {
      var next := FindNul(blob, offset);
      FoundNul(blob, offset);
      if next < |blob| {
        NotTerminatedIff(blob, next + 1);
      }
    }
  }

  lemma {:induction false} FoundNul(blob: string, offset: nat)
    requires offset <= |blob|
    ensures FindNul(blob, offset) < |blob| ==> blob[FindNul(blob, offset)] == NUL
    ensures forall j | offset <= j < FindNul(blob, offset) :: blob[j] != NUL
    decreases |blob| - offset
  {
    if offset < |blob| && blob[offset] != NUL {
      FoundNul(blob, offset + 1);
    }
  }

  // ---------------------------------------------------------------------------------------
  // Round trip
  // ---------------------------------------------------------------------------------------

  lemma {:induction false} CStringOfTerminated(s: string, rest: string)
    requires NulFree(s)
    ensures CString(s + [NUL] + rest) == s
  {
    if s != [] {
      CStringOfTerminated(s[1..], rest);
      assert (s + [NUL] + rest)[1..] == s[1..] + [NUL] + rest;
      HeadAndTail(s);
    }
  }

  lemma {:induction false} FindNulAt(blob: string, offset: nat, end: nat)
    requires offset <= end < |blob| && blob[end] == NUL
    requires forall j | offset <= j < end :: blob[j] != NUL
    ensures FindNul(blob, offset) == end
    decreases end - offset
  {
    if offset < end {
      FindNulAt(blob, offset + 1, end);
    }
  }

  lemma FirstString(blob: string, offset: nat, s: string, rest: string) returns (next: nat)
    requires NulFree(s) && offset <= |blob| && blob[offset..] == s + [NUL] + rest
    ensures offset <= next < |blob| && FindNul(blob, offset) == next
    ensures CString(blob[offset..]) == s
    ensures blob[next + 1..] == rest
  {
    next := offset + |s|;
    var tail := blob[offset..];
    forall j | offset <= j < offset + |s| ensures blob[j] != NUL {
      assert blob[j] == tail[j - offset] == s[j - offset];
    }
    assert blob[offset + |s|] == tail[|s|] == NUL;
    FindNulAt(blob, offset, offset + |s|);
    CStringOfTerminated(s, rest);
    DropTwice(blob, offset, |s| + 1);
    Halves(s + [NUL], rest);
  }

  /** `strings` are the C strings at the offsets of `blob`. */
  ghost predicate FoundIn(blob: string, strings: seq<string>, offsets: seq<nat>) {
    && |offsets| == |strings|
    && forall i | 0 <= i < |strings| :: offsets[i] <= |blob| && CString(blob[offsets[i]..]) == strings[i]
  }

  /** One more string in front of those found from `next + 1` on. */
  lemma FoundOneMore(blob: string, s: string, rest: seq<string>, offset: nat, next: nat, offsets: seq<nat>)
    requires offset <= next < |blob| && FindNul(blob, offset) == next && CString(blob[offset..]) == s
    requires OffsetsFrom(blob, next + 1) == At(offsets) && FoundIn(blob, rest, offsets)
    ensures OffsetsFrom(blob, offset) == At([offset] + offsets)
    ensures FoundIn(blob, [s] + rest, [offset] + offsets)
  {
  }

  predicate AllNulFree(strings: seq<string>) {
    strings == [] || (NulFree(strings[0]) && AllNulFree(strings[1..]))
  }

  lemma {:induction false} AllNulFreeIff(strings: seq<string>)
    ensures AllNulFree(strings) <==> forall i | 0 <= i < |strings| :: NulFree(strings[i])
  {
    if strings != [] {
      AllNulFreeIff(strings[1..]);
      HeadAndTail(strings);
      assert forall i | 0 < i < |strings| :: strings[i] == strings[1..][i - 1];
    }
  }

  /** Where a blob continues with the table of `strings`, they are all found. */
  lemma {:induction false} OffsetsOfBlob(blob: string, offset: nat, strings: seq<string>) returns (offsets: seq<nat>)
    requires AllNulFree(strings)
    requires offset <= |blob| && blob[offset..] == BlobOf(strings)
    ensures OffsetsFrom(blob, offset) == At(offsets)
    ensures FoundIn(blob, strings, offsets)
    decreases |strings|
  {
    hide FindNul, CString;
    if strings == [] {
      offsets := [];
    } else {
      var s, rest := strings[0], strings[1..];
      var next := FirstString(blob, offset, s, BlobOf(rest));
      var offsets' := OffsetsOfBlob(blob, next + 1, rest);
      FoundOneMore(blob, s, rest, offset, next, offsets');
      HeadAndTail(strings);
      offsets := [offset] + offsets';
    }
  }

  /** Every string reads back under its number exactly when no string contains a NUL. */
  lemma TableReadsBackIff(strings: seq<string>)
    ensures ReadsBack(BlobOf(strings), strings) <==> forall i | 0 <= i < |strings| :: NulFree(strings[i])
  {
    var blob := BlobOf(strings);
    AllNulFreeIff(strings);
    if forall i | 0 <= i < |strings| :: NulFree(strings[i]) {
      WholeSlice(blob);
      var offsets := OffsetsOfBlob(blob, 0, strings);
    }
    if ReadsBack(blob, strings) {
      var offsets := OffsetsFrom(blob, 0).offsets;
      forall i | 0 <= i < |strings| ensures NulFree(strings[i]) {
        assert StringAt(blob, offsets, i) == strings[i];
      }
    }
  }

  lemma {:induction false} BlobOfAppend(strings: seq<string>, s: string)
    ensures BlobOf(strings + [s]) == BlobOf(strings) + s + [NUL]
  {
    if strings == [] {
      EmptyUnit([s]);
      EmptyUnit(s + [NUL]);
    } else {
      BlobOfAppend(strings[1..], s);
      TailOfAppend(strings, s);
      var head, tail := strings[0] + [NUL], BlobOf(strings[1..]);
      assert head + (tail + s + [NUL]) == head + tail + s + [NUL];
    }
  }
}
