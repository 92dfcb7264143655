/**
 The hidden marker that ties an issue to its bead: written last into the projected body, read back by searching for the
 last opening of a marker and the first close after it.
 */
module Marker {
  import opened Wrappers

  const OPENING := "<!-- beads-id:"
  const CLOSING := "-->"
  const TAIL := " -->"

  predicate OccursAt(s: string, pattern: string, i: nat) {
    i + |pattern| <= |s| && forall k :: 0 <= k < |pattern| ==> s[i + k] == pattern[k]
  }

  predicate Contains(s: string, pattern: string) { exists i: nat :: i <= |s| && OccursAt(s, pattern, i) }

  /** The first occurrence from `from` on. */
  function Find(s: string, pattern: string, from: nat): (found: Option<nat>)
    requires from <= |s|
    ensures found.Some? ==> from <= found.value && OccursAt(s, pattern, found.value)
    ensures forall j: nat :: from <= j <= |s| && (found.None? || j < found.value) ==> !OccursAt(s, pattern, j)
    decreases |s| - from
  {
    if OccursAt(s, pattern, from) then Some(from)
    else if from == |s| then None
    else Find(s, pattern, from + 1)
  }

  /** The last occurrence before `end`. */
  function FindLast(s: string, pattern: string, end: nat): (found: Option<nat>)
    ensures found.Some? ==> found.value < end && OccursAt(s, pattern, found.value)
    ensures forall j: nat :: j < end && (found.None? || j > found.value) ==> !OccursAt(s, pattern, j)
  {
    if end == 0 then None
    else if OccursAt(s, pattern, end - 1) then Some(end - 1)
    else FindLast(s, pattern, end - 1)
  }

  /** Python's whitespace. */
  predicate IsSpace(c: char) {
    var code := c as int;
    || 0x09 <= code <= 0x0D || 0x1C <= code <= 0x20 || code == 0x85 || code == 0xA0 || code == 0x1680
    || 0x2000 <= code <= 0x200A || code == 0x2028 || code == 0x2029 || code == 0x202F || code == 0x205F
    || code == 0x3000
  }

  lemma SpaceByCode(c: char)
    ensures IsSpace(c) <==> c as int in {9, 10, 11, 12, 13, 28, 29, 30, 31, 32, 133, 160, 5760, 8192, 8193, 8194, 8195,
                                         8196, 8197, 8198, 8199, 8200, 8201, 8202, 8232, 8233, 8239, 8287, 12288}
  {
  }

  function Strip(s: string): (stripped: string)
    ensures |stripped| <= |s|
    ensures stripped != [] ==> !IsSpace(stripped[0]) && !IsSpace(stripped[|stripped| - 1])
    decreases |s|
  {
    if s == [] then s
    else if IsSpace(s[0]) then Strip(s[1..])
    else if IsSpace(s[|s| - 1]) then Strip(s[..|s| - 1])
    else s
  }

  /** Stripping takes a stretch out of the middle, and stripping again takes nothing more. */
  lemma {:induction false} StripIsSlice(s: string) returns (lo: nat)
    ensures lo + |Strip(s)| <= |s| && Strip(s) == s[lo..lo + |Strip(s)|]
    ensures Strip(Strip(s)) == Strip(s)
    decreases |s|
  {
    if s == [] {
      lo := 0;
    } else if IsSpace(s[0]) {
      lo := StripIsSlice(s[1..]);
      lo := lo + 1;
    } else if IsSpace(s[|s| - 1]) {
      lo := StripIsSlice(s[..|s| - 1]);
    } else {
      lo := 0;
    }
  }

  lemma {:induction false} StripTrailing(s: string)
    ensures Strip(s + " ") == Strip(s)
    decreases |s|
  {
    if s == [] {
      assert s + " " == " ";
    } else if IsSpace(s[0]) {
      StripTrailing(s[1..]);
      assert (s + " ")[1..] == s[1..] + " ";
    } else {
      assert (s + " ")[..|s|] == s;
    }
  }

  function MarkerId(body: string): Option<string> {
    match FindLast(body, OPENING, |body|)
    case None => None
    case Some(start) =>
      match Find(body, CLOSING, start)
      case None => None
      case Some(end) =>
        if end < start + |OPENING| then Some("") else Some(Strip(body[start + |OPENING|..end]))
  }

  function MarkerText(id: string): string { OPENING + " " + id + TAIL }

  /** An id the marker can carry: no opening or close of a marker inside it, no whitespace at its edges. */
  predicate Clean(id: string) { !Contains(id, OPENING) && !Contains(id, CLOSING) && Strip(id) == id }

  // ---- reading back -----------------------------------------------------------------------------------------------

  /** A body that ends in a marker begun at `at`. */
  predicate EndsInMarker(body: string, at: nat, id: string) {
    && |body| == at + |OPENING| + 1 + |id| + |TAIL|
    && OccursAt(body, OPENING, at)
    && body[at + |OPENING|] == ' '
    && OccursAt(body, id, at + |OPENING| + 1)
    && OccursAt(body, TAIL, at + |OPENING| + 1 + |id|)
  }

  lemma MarkerTextEnds(front: string, id: string)
    ensures EndsInMarker(front + MarkerText(id), |front|, id)
  {
  }

  lemma OpeningStarts(body: string, q: nat)
    requires OccursAt(body, OPENING, q)
    ensures q + |OPENING| <= |body| && body[q] == '<'
  {
    assert body[q + 0] == OPENING[0];
  }

  lemma OneOpening(body: string, at: nat, q: nat)
    requires OccursAt(body, OPENING, at) && at < q < at + |OPENING|
    ensures body[q] != '<'
  {
    assert body[at + (q - at)] == OPENING[q - at];
  }

  lemma NoneInTail(body: string, end: nat, q: nat)
    requires OccursAt(body, TAIL, end) && end <= q < end + |TAIL|
    ensures body[q] != '<' && (body[q] == '-' ==> q == end + 1 || q == end + 2)
    ensures body[end] == ' ' && body[end + 1] == '-'
  {
    assert body[end + (q - end)] == TAIL[q - end];
    assert body[end + 0] == TAIL[0] && body[end + 1] == TAIL[1];
  }

  lemma OpeningAcross(body: string, q: nat, end: nat)
    requires OccursAt(body, OPENING, q) && q < end < q + |OPENING| && end + 1 < |body|
    ensures body[end] != ' ' || body[end + 1] != '-'
  {
    assert body[q + (end - q)] == OPENING[end - q];
    assert body[q + 5] == OPENING[5];
  }

  lemma NoClosingInOpening(body: string, at: nat, p: nat)
    requires OccursAt(body, OPENING, at) && at <= p < at + |OPENING| && p + 2 < |body|
    ensures !(body[p] == '-' && body[p + 1] == '-' && body[p + 2] == '>')
  {
    assert body[at + (p - at)] == OPENING[p - at];
    assert body[at + 4] == OPENING[4] && body[at + 11] == OPENING[11];
  }

  lemma ClosingChars(body: string, p: nat)
    requires OccursAt(body, CLOSING, p)
    ensures body[p] == '-' && body[p + 1] == '-' && body[p + 2] == '>'
  {
    assert body[p + 0] == CLOSING[0] && body[p + 1] == CLOSING[1] && body[p + 2] == CLOSING[2];
  }

  /** What occurs between the ends of a part occurs in the part. */
  lemma OccursInside(body: string, part: string, pattern: string, first: nat, i: nat)
    requires OccursAt(body, part, first) && OccursAt(body, pattern, i)
    requires first <= i && i + |pattern| <= first + |part|
    ensures OccursAt(part, pattern, i - first)
  {
    forall k | 0 <= k < |pattern|
      ensures part[i - first + k] == pattern[k]
    {
      assert body[first + (i - first + k)] == part[i - first + k] && body[i + k] == pattern[k];
    }
  }

  /** Another opening after the marker's own can only lie wholly inside the id. */
  lemma LaterOpening(body: string, at: nat, id: string, q: nat)
    requires EndsInMarker(body, at, id) && OccursAt(body, OPENING, q) && q > at
    ensures at + |OPENING| < q && OccursAt(id, OPENING, q - at - |OPENING| - 1)
  {
    var first := at + |OPENING| + 1;
    var end := first + |id|;
    OpeningStarts(body, q);
    hide OccursAt;
    if q < at + |OPENING| {
      OneOpening(body, at, q);
    } else if end < q + |OPENING| {
      OpeningAcross(body, q, end);
      NoneInTail(body, end, end);
    } else {
      OccursInside(body, id, OPENING, first, q);
    }
  }

  /** A close after the marker's opening lies wholly inside the id, or is the marker's own. */
  lemma LaterClosing(body: string, at: nat, id: string, p: nat)
    requires EndsInMarker(body, at, id) && OccursAt(body, CLOSING, p) && p >= at
    ensures p == at + |OPENING| + |id| + 2
            || (at + |OPENING| < p && OccursAt(id, CLOSING, p - at - |OPENING| - 1))
  {
    var first := at + |OPENING| + 1;
    var end := first + |id|;
    ClosingChars(body, p);
    NoneInTail(body, end, end);
    if p < at + |OPENING| {
      NoClosingInOpening(body, at, p);
    } else if end <= p {
      NoneInTail(body, end, p);
    } else if first <= p && p + |CLOSING| <= end {
      OccursInside(body, id, CLOSING, first, p);
    }
  }

  lemma InsideIsContained(s: string, pattern: string, i: nat)
    requires OccursAt(s, pattern, i)
    ensures Contains(s, pattern)
  {
  }

  /** A marker at the end of a body reads back as its id exactly when the id is clean. */
  lemma MarkerReadsBack(body: string, at: nat, id: string)
    requires EndsInMarker(body, at, id)
    ensures MarkerId(body) == Some(id) <==> Clean(id)
  {
    hide Strip, OccursAt, Contains;
    var start := FindLast(body, OPENING, |body|).value;
    OwnClosing(body, at, id);
    assert start <= at + |OPENING| + |id| + 2 by { OpeningBeforeClosing(body, at, id, start); }
    var end := Find(body, CLOSING, start).value;
    var first := at + |OPENING| + 1;
    if start > at {
      LaterOpening(body, at, id, start);
      OccursWithin(id, OPENING, start - first);
      InsideIsContained(id, OPENING, start - first);
    } else {
      OpeningInside(body, at, id);
      LaterClosing(body, at, id, end);
      if end != at + |OPENING| + |id| + 2 {
        OccursWithin(id, CLOSING, end - first);
        InsideIsContained(id, CLOSING, end - first);
      } else {
        ClosingInside(body, at, id);
        NoneInTail(body, first + |id|, first + |id|);
        IsPart(body, id, first);
        Surrounded(body, first, |id|);
        SpacedStrips(body[first - 1..first + |id| + 1], body[first - 1], id, body[first + |id|]);
      }
    }
  }

  lemma OpeningBeforeClosing(body: string, at: nat, id: string, start: nat)
    requires EndsInMarker(body, at, id) && OccursAt(body, OPENING, start)
    ensures start <= at + |OPENING| + |id|
  {
  }

  lemma SpacedStrips(spaced: string, left: char, id: string, right: char)
    requires spaced == [left] + id + [right] && left == ' ' && right == ' '
    ensures Strip(spaced) == Strip(id)
  {
    hide Strip;
    StripBetweenSpaces(id);
  }

  lemma Surrounded(body: string, first: nat, n: nat)
    requires 0 < first && first + n < |body|
    ensures body[first - 1..first + n + 1] == [body[first - 1]] + body[first..first + n] + [body[first + n]]
  {
  }

  lemma IsPart(body: string, part: string, offset: nat)
    requires OccursAt(body, part, offset)
    ensures body[offset..offset + |part|] == part
  {
  }

  lemma StripBetweenSpaces(id: string)
    ensures Strip([' '] + id + [' ']) == Strip(id)
  {
    assert ([' '] + id + [' '])[1..] == id + " ";
    StripTrailing(id);
  }

  lemma OpeningInside(body: string, at: nat, id: string)
    requires EndsInMarker(body, at, id) && FindLast(body, OPENING, |body|) == Some(at)
    ensures !Contains(id, OPENING)
  {
    if i: nat :| i <= |id| && OccursAt(id, OPENING, i) {
      Shifted(body, id, OPENING, at + |OPENING| + 1, i);
      assert false;
    }
  }

  lemma ClosingInside(body: string, at: nat, id: string)
    requires EndsInMarker(body, at, id) && Find(body, CLOSING, at) == Some(at + |OPENING| + |id| + 2)
    ensures !Contains(id, CLOSING)
  {
    if i: nat :| i <= |id| && OccursAt(id, CLOSING, i) {
      Shifted(body, id, CLOSING, at + |OPENING| + 1, i);
      assert false;
    }
  }

  lemma OwnClosing(body: string, at: nat, id: string)
    requires EndsInMarker(body, at, id)
    ensures OccursAt(body, CLOSING, at + |OPENING| + |id| + 2)
  {
    var end := at + |OPENING| + 1 + |id|;
    assert body[end + 1] == TAIL[1] && body[end + 2] == TAIL[2] && body[end + 3] == TAIL[3];
  }

  lemma Shifted(body: string, part: string, pattern: string, offset: nat, i: nat)
    requires OccursAt(body, part, offset) && OccursAt(part, pattern, i)
    ensures OccursAt(body, pattern, offset + i)
  {
    forall k | 0 <= k < |pattern|
      ensures body[offset + i + k] == pattern[k]
    {
      assert body[offset + (i + k)] == part[i + k];
    }
  }

  /** Whatever is read back from any body is clean: an unclean id never finds its issue. */
  lemma ReadsBackClean(body: string)
    requires MarkerId(body).Some?
    ensures Clean(MarkerId(body).value)
  {
    hide Strip, OccursAt, Contains;
    var start := FindLast(body, OPENING, |body|).value;
    var end := Find(body, CLOSING, start).value;
    var from := start + |OPENING|;
    EmptyIsClean();
    OccursWithin(body, CLOSING, end);
    if end >= from {
      var part := body[from..end];
      var lo := StripIsSlice(part);
      var id := Strip(part);
      SliceOfSlice(body, from, end, lo, |id|);
      if Contains(id, OPENING) {
        var _ := WithinSlice(body, id, OPENING, from + lo);
      }
      if Contains(id, CLOSING) {
        var _ := WithinSlice(body, id, CLOSING, from + lo);
      }
    }
  }

  lemma SliceOfSlice(s: string, from: nat, end: nat, lo: nat, n: nat)
    requires from <= end <= |s| && lo + n <= end - from
    ensures s[from..end][lo..lo + n] == s[from + lo..from + lo + n]
  {
    var inner, outer := s[from..end][lo..lo + n], s[from + lo..from + lo + n];
    forall k | 0 <= k < n
      ensures inner[k] == outer[k]
    {
      assert inner[k] == s[from..end][lo + k] && outer[k] == s[from + lo + k];
    }
  }

  lemma EmptyIsClean()
    ensures Clean("")
  {
  }

  lemma OccursWithin(s: string, pattern: string, i: nat)
    requires OccursAt(s, pattern, i)
    ensures i + |pattern| <= |s|
  {
  }

  lemma WithinSlice(body: string, part: string, pattern: string, offset: nat) returns (i: nat)
    requires offset + |part| <= |body| && part == body[offset..offset + |part|] && Contains(part, pattern)
    ensures offset <= i && i + |pattern| <= offset + |part| && OccursAt(body, pattern, i)
  {
    var j: nat :| j <= |part| && OccursAt(part, pattern, j);
    Shifted(body, part, pattern, offset, j);
    i := offset + j;
  }
}
