/** `SDManager` (src/gateway_esp32/sd_manager.cpp): mounting the SD card
    with retries, one file open for writing with a flush every 32768 bytes,
    and the comma-separated listing of audio files. The card is a map from
    names to contents; whether a mount or an open succeeds, how many bytes
    the card accepts and the order of directory entries are oracles. */
module SdManager {
  import opened Wrappers
  import opened Bytes

  type FileSystem = map<string, seq<byte>>

  const FlushThreshold: nat := 32768
  const FastClock: nat := 4000000
  const SlowClock: nat := 1000000

  /** The manager's fields over the card: `_ready`, which file `_file` has
      open, `_bytesSinceFlush`, and two observations: the number of flushes
      issued and the SPI clock of every mount probe, in order. */
  datatype Card = Card(ready: bool, fs: FileSystem, open: Option<string>,
                       sinceFlush: nat, flushes: nat, probes: seq<nat>)

  datatype Answer = Answer(ok: bool, next: Card)

  /** A file is open only on a mounted card, and the counter stays below the
      flush threshold. */
  predicate CardValid(c: Card) {
    && (c.open.Some? ==> c.ready)
    && c.sinceFlush < FlushThreshold
  }

  function FileOf(fs: FileSystem, name: string): seq<byte> {
    if name in fs then fs[name] else []
  }

  // ---------------------------------------------------------------------
  // Mounting
  // ---------------------------------------------------------------------

  /** Attempt `a` and later ones mount, at either clock. */
  predicate SomeMountFrom(a: int, maxRetries: int, fast: nat -> bool, slow: nat -> bool)
    decreases maxRetries - a
  {
    0 <= a < maxRetries && (fast(a) || slow(a) || SomeMountFrom(a + 1, maxRetries, fast, slow))
  }

  /** The clocks probed from attempt `a` on: 4 MHz, then 1 MHz if that
      failed, stopping at the first success. */
  function ProbesFrom(a: int, maxRetries: int, fast: nat -> bool, slow: nat -> bool): seq<nat>
    decreases maxRetries - a
  {
    if a < 0 || a >= maxRetries then []
    else if fast(a) || slow(a) then AttemptProbes(fast(a))
    else AttemptProbes(false) + ProbesFrom(a + 1, maxRetries, fast, slow)
  }

  /** The clocks one attempt probes. */
  function AttemptProbes(fastOk: bool): seq<nat> {
    if fastOk then [FastClock] else [FastClock, SlowClock]
  }

  /** One attempt of the loop: it ends `begin` iff it mounts. */
  lemma AttemptStep(a: int, maxRetries: int, fast: nat -> bool, slow: nat -> bool)
    requires 0 <= a < maxRetries
    ensures fast(a) || slow(a) ==>
      ProbesFrom(a, maxRetries, fast, slow) == AttemptProbes(fast(a)) && SomeMountFrom(a, maxRetries, fast, slow)
    ensures !(fast(a) || slow(a)) ==>
      && ProbesFrom(a, maxRetries, fast, slow) == AttemptProbes(false) + ProbesFrom(a + 1, maxRetries, fast, slow)
      && SomeMountFrom(a, maxRetries, fast, slow) == SomeMountFrom(a + 1, maxRetries, fast, slow)
  {
  }

  /** `begin(maxRetries)`: a mounted card answers `true` at once; otherwise
      the attempts run in order and the manager is ready iff one mounts. */
  function OnBegin(c: Card, maxRetries: int, fast: nat -> bool, slow: nat -> bool): Answer {
    if c.ready then Answer(true, c)
    else
      var ok := SomeMountFrom(0, maxRetries, fast, slow);
      Answer(ok, c.(ready := ok, probes := c.probes + ProbesFrom(0, maxRetries, fast, slow)))
  }

  lemma {:induction false} SomeMountFromIff(a: int, maxRetries: int, fast: nat -> bool, slow: nat -> bool)
    requires 0 <= a
    ensures SomeMountFrom(a, maxRetries, fast, slow)
        <==> exists i: nat :: a <= i < maxRetries && (fast(i) || slow(i))
    decreases maxRetries - a
  {
    if a < maxRetries {
      SomeMountFromIff(a + 1, maxRetries, fast, slow);
      if !(fast(a) || slow(a)) {
        assert (exists i: nat :: a <= i < maxRetries && (fast(i) || slow(i)))
           ==> (exists i: nat :: a + 1 <= i < maxRetries && (fast(i) || slow(i)));
      }
    }
  }

  /** Each attempt probes 4 MHz first and 1 MHz only after it, so the probes
      alternate and number at most two per attempt. */
  lemma {:induction false} ProbesShape(a: int, maxRetries: int, fast: nat -> bool, slow: nat -> bool)
    requires 0 <= a
    ensures var p := ProbesFrom(a, maxRetries, fast, slow);
      && (a < maxRetries ==> |p| <= 2 * (maxRetries - a))
      && (a >= maxRetries ==> p == [])
      && (forall j :: 0 <= j < |p| ==> p[j] == (if j % 2 == 0 then FastClock else SlowClock))
    decreases maxRetries - a
  {
    if a < maxRetries && !fast(a) && !slow(a) {
      ProbesShape(a + 1, maxRetries, fast, slow);
      var rest := ProbesFrom(a + 1, maxRetries, fast, slow);
      var p := ProbesFrom(a, maxRetries, fast, slow);
      forall j | 2 <= j < |p| ensures p[j] == (if j % 2 == 0 then FastClock else SlowClock) {
        assert p[j] == rest[j - 2];
      }
    }
  }

  /** `begin` mounts iff some attempt below `maxRetries` succeeds; a failed
      `begin` leaves the card unready, and a second `begin` after success
      changes nothing. */
  lemma BeginOutcome(c: Card, maxRetries: int, fast: nat -> bool, slow: nat -> bool)
    requires !c.ready
    ensures var a := OnBegin(c, maxRetries, fast, slow);
      && (a.ok <==> exists i: nat :: i < maxRetries && (fast(i) || slow(i)))
      && a.next.ready == a.ok
      && |a.next.probes| <= |c.probes| + 2 * (if maxRetries < 0 then 0 else maxRetries)
      && (a.ok ==> OnBegin(a.next, maxRetries, fast, slow) == Answer(true, a.next))
  {
    SomeMountFromIff(0, maxRetries, fast, slow);
    ProbesShape(0, maxRetries, fast, slow);
  }

  // ---------------------------------------------------------------------
  // Writing
  // ---------------------------------------------------------------------

  /** `openForWrite`: refused on an unmounted card; otherwise an existing
      file of that name is removed and a new empty one opened, which resets
      the counter. A failed open leaves no file open. */
  function OnOpenForWrite(c: Card, filename: string, openOk: bool): Answer {
    if !c.ready then Answer(false, c)
    else
      var removed := c.fs - {filename};
      if openOk then Answer(true, c.(fs := removed[filename := []], open := Some(filename), sinceFlush := 0))
      else Answer(false, c.(fs := removed, open := None))
  }

  /** `writeChunk`: refused when unmounted or nothing is open; the card
      takes at most `room` bytes, and a short write closes the file. A full
      write adds its length to the counter, in `size_t` arithmetic, and
      flushes (resetting it) once it reaches the threshold. */
  function OnWriteChunk(c: Card, data: seq<byte>, room: nat): Answer {
    if !c.ready || c.open.None? then Answer(false, c)
    else
      var name := c.open.value;
      var n := Min(|data|, room);
      var fs := c.fs[name := FileOf(c.fs, name) + data[..n]];
      if n != |data| then Answer(false, c.(fs := fs, open := None))
      else
        var sum := WrapAdd(c.sinceFlush, n);
        if sum >= FlushThreshold then Answer(true, c.(fs := fs, sinceFlush := 0, flushes := c.flushes + 1))
        else Answer(true, c.(fs := fs, sinceFlush := sum))
  }

  /** `closeFile`: flush and close an open file; the counter is reset
      either way. */
  function OnCloseFile(c: Card): Card {
    if c.open.Some? then c.(open := None, flushes := c.flushes + 1, sinceFlush := 0)
    else c.(sinceFlush := 0)
  }

  function OnRemove(c: Card, filename: string): Card {
    if c.ready && filename in c.fs then c.(fs := c.fs - {filename}) else c
  }

  lemma OperationsPreserveValid(c: Card, maxRetries: int, fast: nat -> bool, slow: nat -> bool,
                                filename: string, openOk: bool, data: seq<byte>, room: nat)
    requires CardValid(c)
    ensures CardValid(OnBegin(c, maxRetries, fast, slow).next)
    ensures CardValid(OnOpenForWrite(c, filename, openOk).next)
    ensures CardValid(OnWriteChunk(c, data, room).next)
    ensures CardValid(OnCloseFile(c)) && CardValid(OnRemove(c, filename))
  {
  }

  /** An open on a mounted card replaces the file by an empty one and
      resets the counter; an unmounted card is left alone. */
  lemma OpenOutcome(c: Card, filename: string, openOk: bool)
    ensures var a := OnOpenForWrite(c, filename, openOk);
      && (a.ok <==> c.ready && openOk)
      && (a.ok ==> a.next.open == Some(filename) && a.next.fs[filename] == [] && a.next.sinceFlush == 0)
      && (c.ready ==> forall k :: k in c.fs && k != filename ==> k in a.next.fs && a.next.fs[k] == c.fs[k])
      && (c.ready && filename in c.fs ==> a.ok || filename !in a.next.fs)
      && (!c.ready ==> a.next == c)
  {
  }

  /** A write succeeds iff the card is mounted, a file is open and the card
      takes every byte; the bytes land at the end of the open file; after a
      success the counter is below the threshold; and a flush happens
      exactly when the accumulated count reaches the threshold. */
  lemma WriteChunkOutcome(c: Card, data: seq<byte>, room: nat)
    requires CardValid(c)
    ensures var a := OnWriteChunk(c, data, room);
      && (a.ok <==> c.ready && c.open.Some? && |data| <= room)
      && (a.ok ==> a.next.open == c.open
                   && a.next.fs[c.open.value] == FileOf(c.fs, c.open.value) + data
                   && a.next.sinceFlush < FlushThreshold
                   && (a.next.flushes == c.flushes + 1 <==> WrapAdd(c.sinceFlush, |data|) >= FlushThreshold)
                   && (a.next.flushes == c.flushes ==> a.next.sinceFlush == WrapAdd(c.sinceFlush, |data|)))
      && (!a.ok && c.ready && c.open.Some? ==>
            a.next.open.None? && a.next.fs[c.open.value] == FileOf(c.fs, c.open.value) + data[..room])
      && (!c.ready || c.open.None? ==> a.next == c)
  {
  }

  /** Consecutive full writes that stay below the threshold accumulate
      their lengths in the counter. */
  lemma WritesAccumulate(c: Card, x: seq<byte>, y: seq<byte>, room: nat)
    requires CardValid(c) && c.ready && c.open.Some?
    requires |x| <= room && |y| <= room
    requires c.sinceFlush + |x| + |y| < FlushThreshold
    ensures var b := OnWriteChunk(OnWriteChunk(c, x, room).next, y, room);
      && b.ok
      && b.next.sinceFlush == c.sinceFlush + |x| + |y|
      && b.next.flushes == c.flushes
      && b.next.fs[c.open.value] == FileOf(c.fs, c.open.value) + x + y
  {
    var a := OnWriteChunk(c, x, room);
    assert a.next.fs[c.open.value] == FileOf(c.fs, c.open.value) + x;
  }

  // ---------------------------------------------------------------------
  // Listing
  // ---------------------------------------------------------------------

  /** One entry of the root directory as the card iterates it. */
  datatype Entry = Entry(name: string, isDirectory: bool)

  /** The listing's filter: a file (not a directory) whose name ends in
      `.mp3` or `.wav`, case-sensitively. */
  predicate IsAudioFile(e: Entry) {
    !e.isDirectory && (EndsWith(e.name, ".mp3") || EndsWith(e.name, ".wav"))
  }

  function AudioNames(es: seq<Entry>): (ns: seq<string>)
    ensures |ns| <= |es|
  {
    if es == [] then []
    else
      var last := es[|es| - 1];
      AudioNames(es[..|es| - 1]) + (if IsAudioFile(last) then [last.name] else [])
  }

  lemma AudioNamesStep(es: seq<Entry>, i: nat)
    requires i < |es|
    ensures IsAudioFile(es[i]) ==> AudioNames(es[..i + 1]) == AudioNames(es[..i]) + [es[i].name]
    ensures !IsAudioFile(es[i]) ==> AudioNames(es[..i + 1]) == AudioNames(es[..i])
  {
    assert es[..i + 1][..i] == es[..i];
  }

  /** The names with `,` between consecutive ones. */
  function Join(ns: seq<string>): string {
    if ns == [] then ""
    else if |ns| == 1 then ns[0]
    else Join(ns[..|ns| - 1]) + "," + ns[|ns| - 1]
  }

  /** The last comma of `s`. */
  function LastComma(s: string): (r: Option<nat>)
    ensures r.Some? ==> r.value < |s| && s[r.value] == ',' && ',' !in s[r.value + 1..]
    ensures r.None? ==> ',' !in s
  {
    if s == [] then None
    else if s[|s| - 1] == ',' then Some(|s| - 1)
    else
      var r := LastComma(s[..|s| - 1]);
      assert r.Some? ==> s[r.value + 1..] == s[..|s| - 1][r.value + 1..] + [s[|s| - 1]];
      assert r.None? ==> s == s[..|s| - 1] + [s[|s| - 1]];
      r
  }

  /** Splitting a listing at its commas: the reading a client of the
      comma-separated reply would apply. */
  function Split(s: string): (ns: seq<string>)
    ensures |ns| >= 1
    decreases |s|
  {
    match LastComma(s)
    case None => [s]
    case Some(k) => Split(s[..k]) + [s[k + 1..]]
  }

  lemma {:induction false} LastCommaOfJoined(a: string, b: string)
    requires ',' !in b
    ensures LastComma(a + "," + b) == Some(|a|)
    decreases |b|
  {
    var s := a + "," + b;
    if b != [] {
      var b' := b[..|b| - 1];
      assert s[..|s| - 1] == a + "," + b';
      assert s[|s| - 1] == b[|b| - 1];
      LastCommaOfJoined(a, b');
    }
  }

  lemma JoinSnoc(ns: seq<string>, n: string)
    ensures Join(ns + [n]) == if ns == [] then n else Join(ns) + "," + n
  {
    if ns != [] {
      assert (ns + [n])[..|ns|] == ns;
    }
  }

  /** Commas appear only between names: a listing of comma-free names
      splits back into exactly those names. */
  lemma {:induction false} SplitJoin(ns: seq<string>)
    requires ns != []
    requires forall i :: 0 <= i < |ns| ==> ',' !in ns[i]
    ensures Split(Join(ns)) == ns
    decreases |ns|
  {
    if |ns| > 1 {
      var init, last := ns[..|ns| - 1], ns[|ns| - 1];
      SplitJoin(init);
      var s := Join(ns);
      assert s == Join(init) + "," + last;
      LastCommaOfJoined(Join(init), last);
      assert s[..|Join(init)|] == Join(init);
      assert s[|Join(init)| + 1..] == last;
      assert ns == init + [last];
    }
  }

  /** `listAudioFiles` on a mounted card: the audio names in iteration
      order, joined with commas. */
  function Listing(ready: bool, es: seq<Entry>): string {
    if ready then Join(AudioNames(es)) else ""
  }

  // ---------------------------------------------------------------------
  // The object
  // ---------------------------------------------------------------------

  class SdCard {
    var ready: bool
    var fs: FileSystem
    var open: Option<string>
    var bytesSinceFlush: nat
    var flushes: nat
    var probes: seq<nat>

    function State(): Card
      reads this
    {
      Card(ready, fs, open, bytesSinceFlush, flushes, probes)
    }

    ghost predicate Valid()
      reads this
    {
      CardValid(State())
    }

    constructor(card: FileSystem)
      ensures Valid()
      ensures State() == Card(false, card, None, 0, 0, [])
    {
      ready, fs, open := false, card, None;
      bytesSinceFlush, flushes, probes := 0, 0, [];
    }

    method Begin(maxRetries: int, fast: nat -> bool, slow: nat -> bool) returns (ok: bool)
      requires Valid()
      modifies this
      ensures Valid()
      ensures Answer(ok, State()) == OnBegin(old(State()), maxRetries, fast, slow)
    {
      if ready {
        return true;
      }
      var attempt := 0;
      ghost var start := probes;
      while attempt < maxRetries
        invariant 0 <= attempt
        invariant !ready && fs == old(fs) && open == old(open)
        invariant bytesSinceFlush == old(bytesSinceFlush) && flushes == old(flushes)
        invariant probes + ProbesFrom(attempt, maxRetries, fast, slow) == start + ProbesFrom(0, maxRetries, fast, slow)
        invariant SomeMountFrom(0, maxRetries, fast, slow) == SomeMountFrom(attempt, maxRetries, fast, slow)
        decreases maxRetries - attempt
      {
        ghost var before := probes;
        AttemptStep(attempt, maxRetries, fast, slow);
        var mounted := Attempt(attempt, fast, slow);
        if mounted {
          ready := true;
          return true;
        }
        assert probes + ProbesFrom(attempt + 1, maxRetries, fast, slow)
            == before + (AttemptProbes(false) + ProbesFrom(attempt + 1, maxRetries, fast, slow));
        attempt := attempt + 1;
      }
      assert ProbesFrom(attempt, maxRetries, fast, slow) == [];
      ready := false;
      ok := false;
    }

    /** One mount attempt: 4 MHz, then 1 MHz if that failed. */
    method Attempt(attempt: nat, fast: nat -> bool, slow: nat -> bool) returns (mounted: bool)
      modifies this
      ensures mounted == (fast(attempt) || slow(attempt))
      ensures State() == old(State()).(probes := old(probes) + AttemptProbes(fast(attempt)))
    {
      probes := probes + [FastClock];
      if fast(attempt) {
        return true;
      }
      probes := probes + [SlowClock];
      mounted := slow(attempt);
    }

    method OpenForWrite(filename: string, openOk: bool) returns (ok: bool)
      requires Valid()
      modifies this
      ensures Valid()
      ensures Answer(ok, State()) == OnOpenForWrite(old(State()), filename, openOk)
    {
      if !ready {
        return false;
      }
      if open.Some? {
        open := None;
      }
      if filename in fs {
        fs := fs - {filename};
      }
      if !openOk {
        open := None;
        return false;
      }
      fs := fs[filename := []];
      open := Some(filename);
      bytesSinceFlush := 0;
      ok := true;
    }

    method WriteChunk(data: seq<byte>, room: nat) returns (ok: bool)
      requires Valid()
      modifies this
      ensures Valid()
      ensures Answer(ok, State()) == OnWriteChunk(old(State()), data, room)
    {
      if !ready || open.None? {
        return false;
      }
      var name := open.value;
      var written := Min(|data|, room);
      fs := fs[name := FileOf(fs, name) + data[..written]];
      if written != |data| {
        open := None;
        return false;
      }
      bytesSinceFlush := WrapAdd(bytesSinceFlush, written);
      if bytesSinceFlush >= FlushThreshold {
        flushes := flushes + 1;
        bytesSinceFlush := 0;
      }
      ok := true;
    }

    method CloseFile()
      requires Valid()
      modifies this
      ensures Valid()
      ensures State() == OnCloseFile(old(State()))
    {
      if open.Some? {
        flushes := flushes + 1;
        open := None;
      }
      bytesSinceFlush := 0;
    }

    method Remove(filename: string)
      requires Valid()
      modifies this
      ensures Valid()
      ensures State() == OnRemove(old(State()), filename)
    {
      if ready && filename in fs {
        fs := fs - {filename};
      }
    }

    /** `listAudioFiles` over the root directory's entries in iteration
        order. */
    method ListAudioFiles(entries: seq<Entry>) returns (result: string)
      ensures result == Listing(ready, entries)
    {
      result := "";
      if !ready {
        return result;
      }
      var first := true;
      var i := 0;
      while i < |entries|
        invariant 0 <= i <= |entries|
        invariant result == Join(AudioNames(entries[..i]))
        invariant first == (AudioNames(entries[..i]) == [])
      {
        var e := entries[i];
        AudioNamesStep(entries, i);
        if !e.isDirectory {
          var n := e.name;
          if EndsWith(n, ".mp3") || EndsWith(n, ".wav") {
            JoinSnoc(AudioNames(entries[..i]), n);
            if !first {
              result := result + ",";
            }
            result := result + n;
            first := false;
          }
        }
        i := i + 1;
      }
      assert entries[..i] == entries;
    }

    method Exists(filename: string) returns (r: bool)
      ensures r <==> ready && filename in fs
    {
      r := ready && filename in fs;
    }

    method GetFileSize(filename: string) returns (size: nat)
      ensures !ready || filename !in fs ==> size == 0
      ensures ready && filename in fs ==> size == |fs[filename]|
    {
      if !ready || filename !in fs {
        return 0;
      }
      size := |fs[filename]|;
    }
  }
}
