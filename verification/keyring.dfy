/**
  Text stored in the pieces of a keyring: `KeyringStorage` in cli/src/auth.rs. Entry k of the
  ring holds the k-th piece; a piece that is continued ends with a marker.
 */
module Keyring {
  import opened Wrappers

  const CONTINUE_MARKER := "<MORE>"
  const MARKER_LENGTH: nat := 6

  /** The passwords in the operating system's keyring, by the index in their name. */
  type Ring = map<nat, string>

  predicate Continued(chunk: string) {
    MARKER_LENGTH <= |chunk| && chunk[|chunk| - MARKER_LENGTH..] == CONTINUE_MARKER
  }

  function WithoutMarker(chunk: string): string {
    if MARKER_LENGTH <= |chunk| then chunk[..|chunk| - MARKER_LENGTH] else ""
  }

  datatype ReadResult = NoEntry | Text(text: string) | Unreadable

  function Prefixed(a: string, r: ReadResult): ReadResult {
    if r.Text? then Text(a + r.text) else r
  }

  ghost function KeysFrom(ring: Ring, k: nat): set<nat> {
    set j | j in ring && k <= j
  }

  lemma KeysShrink(ring: Ring, k: nat)
    requires k in ring
    ensures KeysFrom(ring, k + 1) < KeysFrom(ring, k)
  {
    assert k in KeysFrom(ring, k) && k !in KeysFrom(ring, k + 1);
  }

  /** Reading from entry `k` on; the entries in `bad` cannot be read. */
  function ReadFrom(ring: Ring, bad: set<nat>, k: nat): ReadResult
    decreases KeysFrom(ring, k)
  {
    if k in bad then Unreadable
    else if k !in ring then NoEntry
    else if Continued(ring[k]) then
      KeysShrink(ring, k);
      Prefixed(WithoutMarker(ring[k]), ReadFrom(ring, bad, k + 1))
    else Text(ring[k])
  }

  /** One past the last entry that such a read asks for. */
  function Visited(ring: Ring, bad: set<nat>, k: nat): (n: nat)
    ensures k < n
    decreases KeysFrom(ring, k)
  {
    if k !in bad && k in ring && Continued(ring[k]) then
      KeysShrink(ring, k);
      Visited(ring, bad, k + 1)
    else k + 1
  }

  /** Storing `text` from entry `k` on, in steps; writing entry `failAt` fails. */
  function StoreFrom(ring: Ring, text: string, k: nat, step: nat, failAt: Option<nat>): (Ring, bool)
    requires step > 0
    decreases |text|
  {
    if text == "" then (ring, true)
    else if failAt == Some(k) then (ring, false)
    else if step <= |text| then
      StoreFrom(ring[k := text[..step] + CONTINUE_MARKER], text[step..], k + 1, step, failAt)
    else (ring[k := text], true)
  }

  /** One past the last entry that such a store asks for. */
  function Attempted(text: string, k: nat, step: nat, failAt: Option<nat>): (n: nat)
    requires step > 0
    ensures k <= n
    decreases |text|
  {
    if text == "" then k
    else if failAt == Some(k) || |text| < step then k + 1
    else Attempted(text[step..], k + 1, step, failAt)
  }

  /** Deleting entries `k` to `n - 1`, up to the first that does not exist or cannot be deleted. */
  function ClearFrom(ring: Ring, k: nat, n: nat, failAt: Option<nat>): (Ring, bool)
    decreases n - k
  {
    if n <= k then (ring, true)
    else if k !in ring || failAt == Some(k) then (ring, false)
    else ClearFrom(ring - {k}, k + 1, n, failAt)
  }

  // ------------------------------------------------------------------------
  // The storage as it runs.
  // ------------------------------------------------------------------------

  class OsKeyring {
    var ring: Ring

    constructor (ring: Ring)
      ensures this.ring == ring
    {
      this.ring := ring;
    }
  }

  class KeyringStorage {
    const os: OsKeyring
    const limit: nat
    /** The index in the name of each entry made so far. */
    var entries: seq<nat>

    constructor (os: OsKeyring, limit: nat)
      requires limit > MARKER_LENGTH
      ensures Valid() && this.os == os && this.limit == limit && entries == []
    {
      this.os, this.limit, entries := os, limit, [];
    }

    /** Entry k names index k. */
    predicate Valid()
      reads this
    {
      limit > MARKER_LENGTH && forall k :: 0 <= k < |entries| ==> entries[k] == k
    }

    function Step(): nat
      requires limit > MARKER_LENGTH
    {
      limit - MARKER_LENGTH
    }

    /** `get_next_entry!` */
    method NextEntry(i: nat) returns (name: nat)
      requires Valid() && i <= |entries|
      modifies this
      ensures Valid() && name == i
      ensures |entries| == if i < |old(entries)| then |old(entries)| else i + 1
    {
      if i < |entries| {
        return entries[i];
      }
      entries := entries + [i];
      return entries[|entries|-1];
    }

    method Read(bad: set<nat>) returns (r: ReadResult)
      requires Valid()
      modifies this
      ensures Valid() && r == ReadFrom(os.ring, bad, 0)
      ensures |entries| == Max(|old(entries)|, Visited(os.ring, bad, 0))
    {
      var str := "";
      var i := 0;
      while true
        invariant Valid() && i <= |entries|
        invariant |entries| == Max(|old(entries)|, i)
        invariant ReadFrom(os.ring, bad, 0) == Prefixed(str, ReadFrom(os.ring, bad, i))
        invariant Visited(os.ring, bad, 0) == Visited(os.ring, bad, i)
        decreases KeysFrom(os.ring, i)
      {
        var entry := NextEntry(i);
        if entry in bad {
          return Unreadable;
        }
        if entry !in os.ring {
          return NoEntry;
        }
        var chunk := os.ring[entry];
        if !Continued(chunk) {
          return Text(str + chunk);
        }
        KeysShrink(os.ring, i);
        PrefixedTwice(str, WithoutMarker(chunk), ReadFrom(os.ring, bad, i + 1));
        str := str + WithoutMarker(chunk);
        i := i + 1;
      }
    }

    method Store(sealed: string, failAt: Option<nat>) returns (ok: bool)
      requires Valid()
      modifies this, os
      ensures Valid() && (os.ring, ok) == StoreFrom(old(os.ring), sealed, 0, Step(), failAt)
      ensures |entries| == Max(|old(entries)|, Attempted(sealed, 0, Step(), failAt))
    {
      var step := limit - MARKER_LENGTH;
      var i := 0;
      ghost var k := 0;
      while i < |sealed|
        invariant Valid() && k <= |entries| == Max(|old(entries)|, k) && i == k * step
        invariant Attempted(sealed, 0, step, failAt) == Attempted(Behind(sealed, i), k, step, failAt)
        invariant StoreFrom(old(os.ring), sealed, 0, step, failAt) == StoreFrom(os.ring, Behind(sealed, i), k, step, failAt)
        decreases |sealed| - i
      {
        NextMultiple(k, step);
        NextPiece(sealed, i, step);
        var entry := NextEntry(i / step);
        if failAt == Some(entry) {
          return false;
        }
        var cutoff := i + step;
        if cutoff <= |sealed| {
          os.ring := os.ring[entry := sealed[i..cutoff] + CONTINUE_MARKER];
        } else {
          os.ring := os.ring[entry := sealed[i..]];
        }
        i, k := cutoff, k + 1;
      }
      ok := true;
    }

    method Clear(bad: set<nat>, failAt: Option<nat>) returns (ok: bool)
      requires Valid()
      modifies this, os
      ensures Valid()
      ensures var n := Max(|old(entries)|, Visited(old(os.ring), bad, 0));
              && (os.ring, ok) == ClearFrom(old(os.ring), 0, n, failAt)
              && |entries| == if ok then 0 else n
    {
      var _ := Read(bad);
      ghost var known := entries;
      for k := 0 to |entries|
        invariant entries == known
        invariant ClearFrom(old(os.ring), 0, |entries|, failAt) == ClearFrom(os.ring, k, |entries|, failAt)
      {
        var entry := entries[k];
        if entry !in os.ring || failAt == Some(entry) {
          return false;
        }
        os.ring := os.ring - {entry};
      }
      entries := [];
      ok := true;
    }
  }

  function Behind(s: string, i: nat): string {
    if i <= |s| then s[i..] else ""
  }

  lemma NextPiece(s: string, i: nat, step: nat)
    ensures i + step <= |s| ==> Behind(s, i)[..step] == s[i..i + step] && Behind(s, i)[step..] == Behind(s, i + step)
    ensures i < |s| < i + step ==> Behind(s, i) == s[i..] && Behind(s, i + step) == ""
  {
  }

  function Max(a: nat, b: nat): nat {
    if a < b then b else a
  }

  lemma PrefixedTwice(a: string, b: string, r: ReadResult)
    ensures Prefixed(a, Prefixed(b, r)) == Prefixed(a + b, r)
  {
    if r.Text? {
      assert a + (b + r.text) == a + b + r.text;
    }
  }

  lemma TimesOrdered(a: int, b: int, c: nat)
    requires a <= b
    ensures a * c <= b * c
  {
  }

  lemma DividesUniquely(n: nat, r: nat, step: nat)
    requires r < step
    ensures (n * step + r) / step == n && (n * step + r) % step == r
  {
    var x := n * step + r;
    var q := x / step;
    assert q * step + x % step == x;
    if q < n {
      TimesOrdered(q + 1, n, step);
    } else if n < q {
      TimesOrdered(n + 1, q, step);
    }
  }

  lemma NextMultiple(k: nat, step: nat)
    requires step > 0
    ensures (k * step) / step == k && k * step + step == (k + 1) * step
  {
    DividesUniquely(k, 0, step);
  }

  // ------------------------------------------------------------------------
  // What a stored text reads back as.
  // ------------------------------------------------------------------------

  /** The part of the text that is shorter than a step. */
  function Tail(text: string, step: nat): string
    requires step > 0
    decreases |text|
  {
    if step <= |text| then Tail(text[step..], step) else text
  }

  /** The number of full steps in the text. */
  function FullPieces(text: string, step: nat): nat
    requires step > 0
    decreases |text|
  {
    if step <= |text| then 1 + FullPieces(text[step..], step) else 0
  }

  lemma {:induction false} TailFacts(text: string, step: nat)
    requires step > 0
    ensures |text| == FullPieces(text, step) * step + |Tail(text, step)| && |Tail(text, step)| < step
    ensures Tail(text, step) == text[|text| - |Tail(text, step)|..]
    decreases |text|
  {
    if step <= |text| {
      TailFacts(text[step..], step);
      assert (1 + FullPieces(text[step..], step)) * step == step + FullPieces(text[step..], step) * step;
    }
  }

  /** Entries below `k` do not matter for reading from `k` on. */
  lemma {:induction false} ReadIgnoresBelow(a: Ring, b: Ring, bad: set<nat>, k: nat)
    requires forall j: nat | k <= j :: (j in a <==> j in b) && (j in a ==> a[j] == b[j])
    ensures ReadFrom(a, bad, k) == ReadFrom(b, bad, k)
    decreases KeysFrom(a, k)
  {
    if k in a && Continued(a[k]) {
      KeysShrink(a, k);
      ReadIgnoresBelow(a, b, bad, k + 1);
    }
  }

  /** Storing changes no entry below `k`, and none from the end of the text on. */
  lemma {:induction false} StoreTouches(ring: Ring, text: string, k: nat, step: nat, j: nat)
    requires step > 0
    requires j < k || k + FullPieces(text, step) + (if Tail(text, step) == "" then 0 else 1) <= j
    ensures var r := StoreFrom(ring, text, k, step, None).0;
            (j in r <==> j in ring) && (j in r ==> r[j] == ring[j])
    decreases |text|
  {
    if step <= |text| {
      StoreTouches(ring[k := text[..step] + CONTINUE_MARKER], text[step..], k + 1, step, j);
    }
  }

  /** What reading a stored text gives, given what the ring held before. */
  function ReadBack(ring: Ring, text: string, k: nat, step: nat): ReadResult
    requires step > 0
  {
    var n, tail := k + FullPieces(text, step), Tail(text, step);
    if tail == "" then Prefixed(text, ReadFrom(ring, {}, n))
    else if Continued(tail) then Prefixed(WithoutMarker(text), ReadFrom(ring, {}, n + 1))
    else Text(text)
  }

  lemma MarkerIsMarker(a: string)
    ensures Continued(a + CONTINUE_MARKER) && WithoutMarker(a + CONTINUE_MARKER) == a
  {
    assert (a + CONTINUE_MARKER)[|a|..] == CONTINUE_MARKER;
  }

  lemma {:induction false} ReadAfterStore(ring: Ring, text: string, k: nat, step: nat)
    requires step > 0
    ensures ReadFrom(StoreFrom(ring, text, k, step, None).0, {}, k) == ReadBack(ring, text, k, step)
    decreases |text|
  {
    if step <= |text| {
      var ring1 := ring[k := text[..step] + CONTINUE_MARKER];
      ReadAfterStore(ring1, text[step..], k + 1, step);
      FirstPiece(ring, text, k, step);
      BackFromRest(ring, ring1, text, k, step);
    } else if text != "" {
      var r := ring[k := text];
      if Continued(text) {
        ReadIgnoresBelow(r, ring, {}, k + 1);
        PrefixedTwice(WithoutMarker(text), "", ReadFrom(ring, {}, k + 1));
      }
    } else {
      PrefixedIs("", "", ReadFrom(ring, {}, k));
      EmptyPrefix(ReadFrom(ring, {}, k));
    }
  }

  lemma EmptyPrefix(r: ReadResult)
    ensures Prefixed("", r) == r
  {
    if r.Text? {
      assert "" + r.text == r.text;
    }
  }

  /** The first of several pieces is read back, and the reading goes on behind it. */
  lemma FirstPiece(ring: Ring, text: string, k: nat, step: nat)
    requires 0 < step <= |text|
    ensures var r := StoreFrom(ring, text, k, step, None).0;
            ReadFrom(r, {}, k) == Prefixed(text[..step], ReadFrom(r, {}, k + 1))
  {
    var r := StoreFrom(ring, text, k, step, None).0;
    var piece := text[..step];
    StoreTouches(ring[k := piece + CONTINUE_MARKER], text[step..], k + 1, step, k);
    MarkerIsMarker(piece);
    assert r[k] == piece + CONTINUE_MARKER;
  }

  lemma BackFromRest(ring: Ring, ring1: Ring, text: string, k: nat, step: nat)
    requires 0 < step <= |text| && ring1.Keys == ring.Keys + {k} && forall j | j in ring && j != k :: ring1[j] == ring[j]
    ensures Prefixed(text[..step], ReadBack(ring1, text[step..], k + 1, step)) == ReadBack(ring, text, k, step)
  {
    var piece, rest := text[..step], text[step..];
    var n := k + FullPieces(text, step);
    TailFacts(rest, step);
    assert piece + rest == text;
    if Tail(text, step) == "" {
      ReadIgnoresBelow(ring1, ring, {}, n);
      PrefixedTwice(piece, rest, ReadFrom(ring, {}, n));
    } else if Continued(Tail(text, step)) {
      assert piece + WithoutMarker(rest) == WithoutMarker(text);
      ReadIgnoresBelow(ring1, ring, {}, n + 1);
      PrefixedTwice(piece, WithoutMarker(rest), ReadFrom(ring, {}, n + 1));
    }
  }

  lemma PrefixedIs(a: string, b: string, r: ReadResult)
    ensures Prefixed(a, r) == Text(a + b) <==> r == Text(b)
  {
    if r.Text? && a + r.text == a + b {
      assert (a + r.text)[|a|..] == r.text && (a + b)[|a|..] == b;
    }
  }

  /** Whether reading after storing gives the text back, in terms of the text and the entries behind it. */
  predicate RoundTrips(ring: Ring, text: string, step: nat)
    requires step > 0
  {
    var n, tail := FullPieces(text, step), Tail(text, step);
    if tail == "" then ReadFrom(ring, {}, n) == Text("")
    else if Continued(tail) then ReadFrom(ring, {}, n + 1) == Text(CONTINUE_MARKER)
    else true
  }

  lemma TailIsSuffix(text: string, step: nat)
    requires step > 0
    ensures |Tail(text, step)| <= |text| && Tail(text, step) == text[|text| - |Tail(text, step)|..]
  {
    TailFacts(text, step);
  }

  lemma NothingBehind(text: string)
    ensures text + "" == text
  {
  }

  lemma MarkerBack(text: string, from: nat)
    requires from <= |text| && Continued(text[from..])
    ensures Continued(text) && text == WithoutMarker(text) + CONTINUE_MARKER
  {
    var n := |text| - MARKER_LENGTH;
    assert text[n..] == text[from..][n - from..];
    assert text == text[..n] + text[n..];
  }

  lemma EmptyTailIff(text: string, r: ReadResult)
    ensures Prefixed(text, r) == Text(text) <==> r == Text("")
  {
    NothingBehind(text);
    PrefixedIs(text, "", r);
  }

  lemma MarkedTailIff(text: string, from: nat, r: ReadResult)
    requires from <= |text| && Continued(text[from..])
    ensures Prefixed(WithoutMarker(text), r) == Text(text) <==> r == Text(CONTINUE_MARKER)
  {
    MarkerBack(text, from);
    PrefixedIs(WithoutMarker(text), CONTINUE_MARKER, r);
  }

  /** The exact condition for one ring. */
  lemma RoundTripIff(ring: Ring, text: string, step: nat)
    requires step > 0
    ensures ReadFrom(StoreFrom(ring, text, 0, step, None).0, {}, 0) == Text(text) <==> RoundTrips(ring, text, step)
  {
    ReadAfterStore(ring, text, 0, step);
    ReadBackIff(ring, text, step);
  }

  lemma ReadBackIff(ring: Ring, text: string, step: nat)
    requires step > 0
    ensures ReadBack(ring, text, 0, step) == Text(text) <==> RoundTrips(ring, text, step)
  {
    TailIsSuffix(text, step);
    var n, tail := FullPieces(text, step), Tail(text, step);
    if tail == "" {
      EmptyTailIff(text, ReadFrom(ring, {}, n));
    } else if Continued(tail) {
      MarkedTailIff(text, |text| - |tail|, ReadFrom(ring, {}, n + 1));
    }
  }

  /**
    A text that reads back whatever the ring held before: its length is not a multiple of the
    step size (so it is not empty either), and its last piece does not end with the marker.
   */
  predicate Storable(text: string, step: nat)
    requires step > 0
  {
    |text| % step != 0 && !(MARKER_LENGTH <= |text| % step && Continued(text))
  }

  lemma StorableIsAboutTail(text: string, step: nat)
    requires step > 0
    ensures Storable(text, step) <==> Tail(text, step) != "" && !Continued(Tail(text, step))
  {
    TailFacts(text, step);
    DividesUniquely(FullPieces(text, step), |Tail(text, step)|, step);
  }

  /** The exact condition for all rings. */
  lemma AlwaysRoundTripsIff(text: string, step: nat)
    requires step > 0
    ensures (forall ring: Ring :: ReadFrom(StoreFrom(ring, text, 0, step, None).0, {}, 0) == Text(text)) <==>
            Storable(text, step)
  {
    if Storable(text, step) {
      forall ring: Ring
        ensures ReadFrom(StoreFrom(ring, text, 0, step, None).0, {}, 0) == Text(text)
      {
        StorableIsAboutTail(text, step);
        RoundTripIff(ring, text, step);
      }
    } else {
      var ring := LosingRing(text, step);
    }
  }

  /** A ring that held nothing does not give back a text that is not storable. */
  lemma LosingRing(text: string, step: nat) returns (ring: Ring)
    requires step > 0 && !Storable(text, step)
    ensures ReadFrom(StoreFrom(ring, text, 0, step, None).0, {}, 0) != Text(text)
  {
    ring := map[];
    StorableIsAboutTail(text, step);
    RoundTripIff(ring, text, step);
  }

  predicate Within(ring: Ring, limit: nat) {
    forall j | j in ring :: |ring[j]| <= limit
  }

  /** No entry is longer than the limit, even if storing fails midway. */
  lemma {:induction false} EntriesFit(ring: Ring, text: string, k: nat, step: nat, failAt: Option<nat>)
    requires step > 0 && Within(ring, step + MARKER_LENGTH)
    ensures Within(StoreFrom(ring, text, k, step, failAt).0, step + MARKER_LENGTH)
    decreases |text|
  {
    if text != "" && failAt != Some(k) {
      if step <= |text| {
        EntriesFit(ring[k := text[..step] + CONTINUE_MARKER], text[step..], k + 1, step, failAt);
      } else {
        assert Within(ring[k := text], step + MARKER_LENGTH);
      }
    }
  }

  // ------------------------------------------------------------------------
  // Clearing.
  // ------------------------------------------------------------------------

  /** Clearing succeeds if and only if every entry it knows of exists and can be deleted; then they are gone. */
  lemma {:induction false} ClearIff(ring: Ring, k: nat, n: nat, failAt: Option<nat>)
    requires k <= n
    ensures var (r, ok) := ClearFrom(ring, k, n, failAt);
            && (ok <==> forall j: nat | k <= j < n :: j in ring && failAt != Some(j))
            && (ok ==> forall j | k <= j < n :: j !in r)
            && (forall j | j in ring && !(k <= j < n) :: j in r)
            && (forall j | j in r :: j in ring && r[j] == ring[j])
    decreases n - k
  {
    if k < n && k in ring && failAt != Some(k) {
      ClearIff(ring - {k}, k + 1, n, failAt);
      assert forall j: nat | k < j :: j in ring <==> j in ring - {k};
    }
  }

  /** After clearing, nothing is read: completely, or at least from the first entry that went. */
  lemma ClearedReadsNothing(ring: Ring, n: nat, failAt: Option<nat>)
    requires n > 0
    ensures var (r, ok) := ClearFrom(ring, 0, n, failAt);
            && (ok || (0 in ring && failAt != Some(0)) ==> ReadFrom(r, {}, 0) == NoEntry)
            && (0 !in ring || failAt == Some(0) ==> r == ring && !ok)
  {
    if 0 in ring && failAt != Some(0) {
      ClearIff(ring - {0}, 1, n, failAt);
    }
  }
}
