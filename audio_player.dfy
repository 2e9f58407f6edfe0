/** The playback half of `AudioManager` (src/audio_manager.cpp; the playback
    methods of src/gateway_esp32/audio_manager.cpp are the same, while its
    `begin` mounts LittleFS, formatting and remounting once when the first
    mount fails, where this one mounts SPIFFS; both come down to one mount
    result here, and the gateway's `setMQTTClient` is not part of the
    player): which decoder and
    source objects it holds, whether it is initialised and playing, and the
    stored volume. The filesystem, the I2S output and the WAV/MP3 decoders
    are oracles: a mount result, a set of existing file names, and the
    decoder's `begin`, `isRunning` and `loop` answers. */
module AudioPlayer {
  import opened Bytes

  const DefaultVolume: real := 0.5

  /** The manager's fields; each pointer field is recorded as non-null
      (`true`) or null (`false`). */
  datatype Player = Player(
    initialized: bool, isPlaying: bool, volume: real,
    out: bool, file: bool, id3: bool, wav: bool, mp3: bool)

  /** What the decoder in the filled slot answers: `isRunning()` and the
      result of one `loop()` step. */
  datatype Decoder = Decoder(running: bool, stepOk: bool)

  /** A boolean result together with the state after the call. */
  datatype Answer = Answer(ok: bool, next: Player)

  datatype Format = Wav | Mp3 | Unsupported

  /** What every reachable state satisfies: the output exists exactly while
      initialised, a source file is held exactly while a decoder is, the ID3
      wrapper belongs to the MP3 decoder, at most one decoder exists, and a
      playing manager holds one. */
  predicate Valid(p: Player) {
    && p.out == p.initialized
    && p.file == (p.wav || p.mp3)
    && p.id3 == p.mp3
    && !(p.wav && p.mp3)
    && ((p.wav || p.mp3) ==> p.initialized)
    && (p.isPlaying ==> p.wav || p.mp3)
    && 0.0 <= p.volume <= 1.0
  }

  function Initial(): (p: Player)
    ensures Valid(p) && !p.initialized && !p.isPlaying && p.volume == DefaultVolume
  {
    Player(false, false, DefaultVolume, false, false, false, false, false)
  }

  /** `cleanup`: every decoder and source slot is null and nothing plays;
      the output, the initialised flag and the volume are kept. */
  function OnCleanup(p: Player): (r: Player)
    ensures !r.wav && !r.mp3 && !r.id3 && !r.file && !r.isPlaying
    ensures r.initialized == p.initialized && r.out == p.out && r.volume == p.volume
  {
    p.(isPlaying := false, file := false, id3 := false, wav := false, mp3 := false)
  }

  /** `begin`: already initialised answers `true` at once; otherwise the
      mount decides, and only a successful mount creates the output. */
  function OnBegin(p: Player, mountOk: bool): Answer {
    if p.initialized then Answer(true, p)
    else if !mountOk then Answer(false, p)
    else Answer(true, p.(out := true, initialized := true))
  }

  /** `end`: cleanup, then drop the output and the initialised flag. */
  function OnEnd(p: Player): Player {
    OnCleanup(p).(out := false, initialized := false)
  }

  /** `playWAV`: after a cleanup a source and a WAV decoder are created;
      playback starts iff the decoder's `begin` succeeds, otherwise
      everything is cleaned up again. */
  function OnPlayWav(p: Player, beginOk: bool): Answer {
    if !p.initialized then Answer(false, p)
    else
      var loaded := OnCleanup(p).(file := true, wav := true);
      if beginOk then Answer(true, loaded.(isPlaying := true))
      else Answer(false, OnCleanup(loaded))
  }

  /** `playMP3`: as `playWAV`, with an ID3 wrapper between source and
      decoder. */
  function OnPlayMp3(p: Player, beginOk: bool): Answer {
    if !p.initialized then Answer(false, p)
    else
      var loaded := OnCleanup(p).(file := true, id3 := true, mp3 := true);
      if beginOk then Answer(true, loaded.(isPlaying := true))
      else Answer(false, OnCleanup(loaded))
  }

  /** The lower-cased name decides the decoder. */
  function FormatOf(filename: string): Format {
    var name := Lower(filename);
    if EndsWith(name, ".wav") then Wav
    else if EndsWith(name, ".mp3") then Mp3
    else Unsupported
  }

  /** `playFile`: refuse when not initialised; otherwise stop whatever
      plays, refuse a missing file, and dispatch on the extension. */
  function OnPlayFile(p: Player, filename: string, files: set<string>, beginOk: bool): Answer {
    if !p.initialized then Answer(false, p)
    else
      var stopped := OnCleanup(p);
      if filename !in files then Answer(false, stopped)
      else match FormatOf(filename)
        case Wav => OnPlayWav(stopped, beginOk)
        case Mp3 => OnPlayMp3(stopped, beginOk)
        case Unsupported => Answer(false, stopped)
  }

  /** `loop`: nothing unless initialised and playing; a running decoder
      whose step reports the end of the stream is cleaned up; with no
      running decoder the playing flag is cleared. */
  function OnLoop(p: Player, d: Decoder): Player {
    if !p.initialized || !p.isPlaying then p
    else if (p.wav && d.running) || (p.mp3 && d.running) then
      if !d.stepOk then OnCleanup(p) else p
    else p.(isPlaying := false)
  }

  /** Arduino's `constrain(v, 0.0, 1.0)`. */
  function Clamp(v: real): (r: real)
    ensures 0.0 <= r <= 1.0
    ensures 0.0 <= v <= 1.0 ==> r == v
    ensures v < 0.0 ==> r == 0.0
    ensures v > 1.0 ==> r == 1.0
  {
    if v < 0.0 then 0.0 else if v > 1.0 then 1.0 else v
  }

  function OnSetVolume(p: Player, v: real): Player {
    p.(volume := Clamp(v))
  }

  /** `playing()`: `true` iff initialised, playing and a decoder is
      running; a playing flag with no running decoder is cleared. */
  function OnPlaying(p: Player, running: bool): Answer {
    if !p.initialized || !p.isPlaying then Answer(false, p)
    else if (p.wav && running) || (p.mp3 && running) then Answer(true, p)
    else Answer(false, p.(isPlaying := false))
  }

  // ---------------------------------------------------------------------
  // Properties
  // ---------------------------------------------------------------------

  /** Every operation keeps the slot invariant. */
  lemma OperationsPreserveValid(p: Player, mountOk: bool, beginOk: bool, filename: string,
                                files: set<string>, d: Decoder, v: real, running: bool)
    requires Valid(p)
    ensures Valid(OnCleanup(p)) && Valid(OnEnd(p)) && Valid(OnSetVolume(p, v))
    ensures Valid(OnBegin(p, mountOk).next)
    ensures Valid(OnPlayWav(p, beginOk).next) && Valid(OnPlayMp3(p, beginOk).next)
    ensures Valid(OnPlayFile(p, filename, files, beginOk).next)
    ensures Valid(OnLoop(p, d)) && Valid(OnPlaying(p, running).next)
  {
  }

  /** A second `begin` changes nothing, and a failed mount leaves the
      manager uninitialised. */
  lemma BeginFacts(p: Player, mountOk: bool, again: bool)
    ensures var a := OnBegin(p, mountOk);
      a.ok ==> OnBegin(a.next, again) == Answer(true, a.next)
    ensures !p.initialized && !mountOk ==> OnBegin(p, mountOk) == Answer(false, p)
    ensures OnBegin(p, mountOk).ok <==> p.initialized || mountOk
  {
  }

  /** `playFile` succeeds exactly when the manager is initialised, the file
      exists, its extension is supported and the decoder starts; then the
      matching decoder plays. On every initialised path the previous
      playback is stopped. */
  lemma PlayFileOutcome(p: Player, filename: string, files: set<string>, beginOk: bool)
    requires Valid(p)
    ensures var a := OnPlayFile(p, filename, files, beginOk);
      && (a.ok <==> p.initialized && filename in files && FormatOf(filename) != Unsupported && beginOk)
      && (a.ok ==> a.next.isPlaying && (a.next.wav <==> FormatOf(filename) == Wav)
                                     && (a.next.mp3 <==> FormatOf(filename) == Mp3))
      && (!a.ok && p.initialized ==> a.next == OnCleanup(p))
      && (!p.initialized ==> a.next == p)
  {
  }

  /** The extension test ignores case: a name and its lower-case form pick
      the same decoder, and an upper-case extension is recognised. */
  lemma FormatIgnoresCase(filename: string)
    ensures FormatOf(Lower(filename)) == FormatOf(filename)
  {
    LowerIdempotent(filename);
  }

  lemma UpperCaseExtensions(stem: string)
    ensures FormatOf(stem + ".WAV") == Wav
    ensures FormatOf(stem + ".Mp3") == Mp3
  {
    LowerAppend(stem, ".WAV");
    LowerAppend(stem, ".Mp3");
    LowerOfExtensions();
    assert (Lower(stem) + ".wav")[|stem|..] == ".wav";
    assert (Lower(stem) + ".mp3")[|stem|..] == ".mp3";
  }

  lemma LowerOfExtensions()
    ensures Lower(".WAV") == ".wav" && Lower(".Mp3") == ".mp3"
  {
  }

  lemma LowerAppend(a: string, b: string)
    ensures Lower(a + b) == Lower(a) + Lower(b)
  {
    var l := Lower(a + b);
    forall i | 0 <= i < |a + b| ensures l[i] == (Lower(a) + Lower(b))[i] {
      assert l[i] == ToLower((a + b)[i]);
    }
  }

  /** `loop` clears the decoders when the decoder reports the end of the
      stream, keeps a healthy stream unchanged, and never touches an idle or
      uninitialised manager. */
  lemma LoopOutcome(p: Player, d: Decoder)
    requires Valid(p)
    ensures !p.initialized || !p.isPlaying ==> OnLoop(p, d) == p
    ensures p.initialized && p.isPlaying && d.running && !d.stepOk ==> OnLoop(p, d) == OnCleanup(p)
    ensures p.initialized && p.isPlaying && d.running && d.stepOk ==> OnLoop(p, d) == p
    ensures !d.running ==> !OnLoop(p, d).isPlaying
  {
  }

  /** `playing()` answers exactly "initialised, playing and running", and a
      `false` answer leaves `isPlaying` false. */
  lemma PlayingOutcome(p: Player, running: bool)
    requires Valid(p)
    ensures var a := OnPlaying(p, running);
      && (a.ok <==> p.initialized && p.isPlaying && running)
      && (!a.ok ==> !a.next.isPlaying)
      && a.next.(isPlaying := p.isPlaying) == p
  {
  }

  /** After `end` a `begin` with a working mount re-initialises an idle
      manager that keeps its volume. */
  lemma EndThenBegin(p: Player)
    requires Valid(p)
    ensures var e := OnEnd(p);
      && !e.initialized && !e.isPlaying && !e.out
      && OnBegin(e, true) == Answer(true, e.(out := true, initialized := true))
      && !OnPlayFile(e, "/a.mp3", {"/a.mp3"}, true).ok
  {
  }

  // ---------------------------------------------------------------------
  // The object
  // ---------------------------------------------------------------------

  class AudioManager {
    var initialized: bool
    var isPlaying: bool
    var currentVolume: real
    var out: bool
    var file: bool
    var id3: bool
    var wav: bool
    var mp3: bool

    function State(): Player
      reads this
    {
      Player(initialized, isPlaying, currentVolume, out, file, id3, wav, mp3)
    }

    constructor()
      ensures State() == Initial()
    {
      initialized, isPlaying, currentVolume := false, false, DefaultVolume;
      out, file, id3, wav, mp3 := false, false, false, false, false;
    }

    method Cleanup()
      modifies this
      ensures State() == OnCleanup(old(State()))
    {
      if wav {
        wav := false;
      }
      if mp3 {
        mp3 := false;
      }
      if id3 {
        id3 := false;
      }
      if file {
        file := false;
      }
      isPlaying := false;
    }

    method Begin(mountOk: bool) returns (ok: bool)
      modifies this
      ensures Answer(ok, State()) == OnBegin(old(State()), mountOk)
    {
      if initialized {
        return true;
      }
      if !mountOk {
        return false;
      }
      out := true;
      initialized := true;
      ok := true;
    }

    method End()
      modifies this
      ensures State() == OnEnd(old(State()))
    {
      Cleanup();
      if out {
        out := false;
      }
      initialized := false;
    }

    method Stop()
      modifies this
      ensures State() == OnCleanup(old(State()))
    {
      Cleanup();
    }

    method PlayFile(filename: string, files: set<string>, beginOk: bool) returns (ok: bool)
      modifies this
      ensures Answer(ok, State()) == OnPlayFile(old(State()), filename, files, beginOk)
    {
      if !initialized {
        return false;
      }
      Stop();
      if filename !in files {
        return false;
      }
      var name := Lower(filename);
      if EndsWith(name, ".wav") {
        ok := PlayWav(beginOk);
      } else if EndsWith(name, ".mp3") {
        ok := PlayMp3(beginOk);
      } else {
        ok := false;
      }
    }

    method PlayWav(beginOk: bool) returns (ok: bool)
      modifies this
      ensures Answer(ok, State()) == OnPlayWav(old(State()), beginOk)
    {
      if !initialized {
        return false;
      }
      Cleanup();
      file := true;
      wav := true;
      if beginOk {
        isPlaying := true;
        ok := true;
      } else {
        Cleanup();
        ok := false;
      }
    }

    method PlayMp3(beginOk: bool) returns (ok: bool)
      modifies this
      ensures Answer(ok, State()) == OnPlayMp3(old(State()), beginOk)
    {
      if !initialized {
        return false;
      }
      Cleanup();
      file := true;
      id3 := true;
      mp3 := true;
      if beginOk {
        isPlaying := true;
        ok := true;
      } else {
        Cleanup();
        ok := false;
      }
    }

    method Loop(d: Decoder)
      modifies this
      ensures State() == OnLoop(old(State()), d)
    {
      if !initialized || !isPlaying {
        return;
      }
      if wav && d.running {
        if !d.stepOk {
          Cleanup();
        }
      } else if mp3 && d.running {
        if !d.stepOk {
          Cleanup();
        }
      } else {
        isPlaying := false;
      }
    }

    method SetVolume(volume: real)
      modifies this
      ensures State() == OnSetVolume(old(State()), volume)
    {
      currentVolume := Clamp(volume);
    }

    method GetVolume() returns (v: real)
      ensures v == currentVolume
    {
      v := currentVolume;
    }

    method Playing(running: bool) returns (r: bool)
      modifies this
      ensures Answer(r, State()) == OnPlaying(old(State()), running)
    {
      if !initialized || !isPlaying {
        return false;
      }
      if wav && running {
        return true;
      }
      if mp3 && running {
        return true;
      }
      isPlaying := false;
      r := false;
    }
  }
}
