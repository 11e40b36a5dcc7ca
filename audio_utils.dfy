/**
 * The server's speech loop (`transcribe_audio`). The recognizer is seen
 * through what each microphone read produces: a final result, a partial
 * result, an input overflow, or another read error. The loop sends
 * `transcription` and `partial_transcription` frames as it goes and ends on a
 * stop word, after a run of silent reads, or with the read error raised.
 */
module AudioUtils {
  import opened Strings
  import opened Protocol

  /** What one pass of the loop reads. */
  datatype AudioEvent =
    | Final(text: string)       // `AcceptWaveform` is true; `Result()["text"]`, perhaps ""
    | Partial(text: string)     // `AcceptWaveform` is false; `PartialResult()["partial"]`, perhaps ""
    | Overflow                  // an `IOError` with `paInputOverflowed`: read again
    | ReadError(message: string) // any other `IOError`: raised out of the loop

  /** The loop's variables `full_text`, `silence_counter` and `last_partial`. */
  datatype Scan = Scan(fullText: string, silence: nat, lastPartial: string)

  const Start: Scan := Scan([], 0, [])

  /** The silent reads tolerated; one more ends the loop. */
  const SilenceLimit: nat := 25

  /** How the loop ended. `Exhausted`: the reads given ran out while the loop was still running. */
  datatype Ending = StopWord | Silence | ReadFailed(message: string) | Exhausted

  /** The frames sent, how the loop ended, and `full_text.strip()` (empty when the loop raised). */
  datatype Transcript = Transcript(frames: seq<ServerFrame>, ending: Ending, text: string)

  /** Some stop word occurs in the lower-cased result, anywhere in it. */
  predicate HasStopWord(result: string) {
    Contains(Lower(result), "stop") || Contains(Lower(result), "exit") || Contains(Lower(result), "berhenti")
  }

  function Extend(frames: seq<ServerFrame>, t: Transcript): Transcript {
    Transcript(frames + t.frames, t.ending, t.text)
  }

  /** The loop run on the reads `events` from the state `st`. */
  function Listen(events: seq<AudioEvent>, st: Scan): Transcript
    decreases |events|
  {
    if events == [] then Transcript([], Exhausted, Trim(st.fullText))
    else
      match events[0]
      case Overflow => Listen(events[1..], st)
      case ReadError(m) => Transcript([], ReadFailed(m), [])
      case Final(result) =>
        if result == [] then
          if st.silence > SilenceLimit then Transcript([], Silence, Trim(st.fullText))
          else Listen(events[1..], st)
        else
          var full := st.fullText + result + " ";
          var frame := TranscriptionMsg(result, Trim(full));
          if HasStopWord(result) then Transcript([frame], StopWord, Trim(full))
          else Extend([frame], Listen(events[1..], Scan(full, 0, st.lastPartial)))
      case Partial(p) =>
        if p != [] && p != st.lastPartial then
          Extend([PartialMsg(p)], Listen(events[1..], Scan(st.fullText, 0, p)))
        else if st.silence + 1 > SilenceLimit then Transcript([], Silence, Trim(st.fullText))
        else Listen(events[1..], st.(silence := st.silence + 1))
  }

  /** The loop sends only `transcription` and `partial_transcription` frames. */
  lemma {:induction false} ListenFrameKinds(events: seq<AudioEvent>, st: Scan)
    ensures forall i :: 0 <= i < |Listen(events, st).frames| ==>
      Listen(events, st).frames[i].TranscriptionMsg? || Listen(events, st).frames[i].PartialMsg?
    decreases |events|
  {
    if events != [] {
      match events[0]
      case Overflow => ListenFrameKinds(events[1..], st);
      case ReadError(_) =>
      case Final(result) =>
        if result == [] {
          if st.silence <= SilenceLimit {
            assert Listen(events, st) == Listen(events[1..], st);
            ListenFrameKinds(events[1..], st);
          }
        } else if !HasStopWord(result) {
          var full := st.fullText + result + " ";
          var rest := Listen(events[1..], Scan(full, 0, st.lastPartial));
          var fs := Listen(events, st).frames;
          assert fs == [TranscriptionMsg(result, Trim(full))] + rest.frames;
          ListenFrameKinds(events[1..], Scan(full, 0, st.lastPartial));
          assert forall i :: 0 < i < |fs| ==> fs[i] == rest.frames[i - 1];
        } else {
          assert Listen(events, st).frames == [TranscriptionMsg(result, Trim(st.fullText + result + " "))];
        }
      case Partial(p) =>
        if p != [] && p != st.lastPartial {
          ListenFrameKinds(events[1..], Scan(st.fullText, 0, p));
        } else if st.silence + 1 <= SilenceLimit {
          ListenFrameKinds(events[1..], st.(silence := st.silence + 1));
        }
    }
  }

  lemma ExtendAssoc(a: seq<ServerFrame>, b: seq<ServerFrame>, t: Transcript)
    ensures Extend(a, Extend(b, t)) == Extend(a + b, t)
  {
    assert a + (b + t.frames) == (a + b) + t.frames;
  }

  /** `transcribe_audio`: the loop over the microphone reads, from the initial state. */
  method TranscribeAudio(events: seq<AudioEvent>) returns (frames: seq<ServerFrame>, ending: Ending, text: string)
    ensures Transcript(frames, ending, text) == Listen(events, Start)
  {
    var fullText: string, silence: nat, lastPartial: string := [], 0, [];
    frames := [];
    var i := 0;
    while i < |events|
      invariant 0 <= i <= |events|
      invariant Listen(events, Start) == Extend(frames, Listen(events[i..], Scan(fullText, silence, lastPartial)))
    {
      assert events[i..][1..] == events[i + 1..];
      match events[i] {
      case Overflow =>
      case ReadError(m) =>
        assert frames + [] == frames;
        ending, text := ReadFailed(m), [];
        return;
      case Final(result) =>
        if result != [] {
          fullText := fullText + result + " ";
          ExtendAssoc(frames, [TranscriptionMsg(result, Trim(fullText))], Listen(events[i + 1..], Scan(fullText, 0, lastPartial)));
          frames := frames + [TranscriptionMsg(result, Trim(fullText))];
          silence := 0;
          if HasStopWord(result) {
            ending, text := StopWord, Trim(fullText);
            return;
          }
        }
        if silence > SilenceLimit {
          assert frames + [] == frames;
          ending, text := Silence, Trim(fullText);
          return;
        }
      case Partial(p) =>
        if p != [] && p != lastPartial {
          ExtendAssoc(frames, [PartialMsg(p)], Listen(events[i + 1..], Scan(fullText, 0, p)));
          frames := frames + [PartialMsg(p)];
          lastPartial := p;
          silence := 0;
        } else {
          silence := silence + 1;
        }
        if silence > SilenceLimit {
          assert frames + [] == frames;
          ending, text := Silence, Trim(fullText);
          return;
        }
      }
      i := i + 1;
    }
    assert frames + [] == frames;
    ending, text := Exhausted, Trim(fullText);
  }

  // ---------------------------------------------------------------------------
  // Silence

  /** A read that leaves `silence_counter` counting: an empty or repeated partial. */
  predicate Idle(e: AudioEvent, lastPartial: string) {
    e.Partial? && (e.text == [] || e.text == lastPartial)
  }

  /** The silent reads still allowed, plus one, that are idle partials end the loop with nothing sent. */
  lemma {:induction false} SilenceEnds(events: seq<AudioEvent>, st: Scan)
    requires st.silence <= SilenceLimit
    requires SilenceLimit + 1 - st.silence <= |events|
    requires forall i :: 0 <= i < SilenceLimit + 1 - st.silence ==> Idle(events[i], st.lastPartial)
    ensures Listen(events, st) == Transcript([], Silence, Trim(st.fullText))
    decreases SilenceLimit - st.silence
  {
    assert Idle(events[0], st.lastPartial);
    if st.silence < SilenceLimit {
      var next := st.(silence := st.silence + 1);
      forall i | 0 <= i < SilenceLimit + 1 - next.silence
        ensures Idle(events[1..][i], next.lastPartial)
      {
        assert events[1..][i] == events[i + 1];
      }
      SilenceEnds(events[1..], next);
    }
  }

  /** `last_partial` after the frames `frames`, starting from `last`. */
  function LastPartial(frames: seq<ServerFrame>, last: string): string
    decreases |frames|
  {
    if frames == [] then last
    else LastPartial(frames[1..], if frames[0].PartialMsg? then frames[0].text else last)
  }

  /**
   * Once overflows and empty finals are set aside, the reads are exactly the
   * `SilenceLimit + 1 - silence` reads the counter still needs, each an empty
   * partial or a repeat of `last`.
   */
  predicate IdleRun(run: seq<AudioEvent>, silence: nat, last: string) {
    && |Productive(run)| + silence == SilenceLimit + 1
    && forall i :: 0 <= i < |Productive(run)| ==> Idle(Productive(run)[i], last)
  }

  /**
   * The reads `events[..m]` send every frame of the run, and `events[m..n]`,
   * the reads after the last frame sent, form an idle run counted from where
   * the last frame left the counter: zero, or the starting count when no
   * frame was sent.
   */
  predicate SilentTail(events: seq<AudioEvent>, st: Scan, m: nat, n: nat) {
    var frames := Listen(events, st).frames;
    && m < n <= |events|
    && Listen(events[..m], st).frames == frames
    && (frames == [] ==> m == 0)
    && IdleRun(events[m..n], if frames == [] then st.silence else 0, LastPartial(frames, st.lastPartial))
  }

  /**
   * The converse of `SilenceEnds`: the loop ends on silence only after the
   * reads following the last frame sent include the missing count of empty or
   * repeated partials, and no other reads except overflows and empty finals.
   */
  lemma {:induction false} SilenceNeedsIdleRun(events: seq<AudioEvent>, st: Scan)
    requires st.silence <= SilenceLimit
    requires Listen(events, st).ending == Silence
    ensures exists m: nat, n: nat :: SilentTail(events, st, m, n)
    decreases |events|, 1
  {
    var e := events[0];
    if e.Overflow? || e == Final([]) {
      SkippedRead(events, st);
    } else if e.Final? {
      SentRead(events, st, Scan(st.fullText + e.text + " ", 0, st.lastPartial), TranscriptionMsg(e.text, Trim(st.fullText + e.text + " ")));
    } else if e.Partial? && e.text != [] && e.text != st.lastPartial {
      SentRead(events, st, Scan(st.fullText, 0, e.text), PartialMsg(e.text));
    } else {
      IdleRead(events, st);
    }
  }

  /** `SilenceNeedsIdleRun` past an overflow or an empty final, which `Productive` leaves out. */
  lemma {:induction false} SkippedRead(events: seq<AudioEvent>, st: Scan)
    requires st.silence <= SilenceLimit
    requires Listen(events, st).ending == Silence
    requires events != [] && (events[0].Overflow? || events[0] == Final([]))
    ensures exists m: nat, n: nat :: SilentTail(events, st, m, n)
    decreases |events|, 0
  {
    assert Listen(events, st) == Listen(events[1..], st);
    SilenceNeedsIdleRun(events[1..], st);
    var m': nat, n': nat :| SilentTail(events[1..], st, m', n');
    if Listen(events, st).frames == [] {
      SkipUnproductive(events, n' + 1);
      assert SilentTail(events, st, 0, n' + 1);
    } else {
      ShiftTail(events, m', n');
      assert events[..m' + 1][1..] == events[1..][..m'];
      assert SilentTail(events, st, m' + 1, n' + 1);
    }
  }

  /** `SilenceNeedsIdleRun` past a read that sends `frame` and moves the loop to `st'`. */
  lemma {:induction false} SentRead(events: seq<AudioEvent>, st: Scan, st': Scan, frame: ServerFrame)
    requires st.silence <= SilenceLimit
    requires Listen(events, st).ending == Silence
    requires events != []
    requires || (events[0].Final? && events[0].text != [] && !HasStopWord(events[0].text)
                 && st' == Scan(st.fullText + events[0].text + " ", 0, st.lastPartial)
                 && frame == TranscriptionMsg(events[0].text, Trim(st'.fullText)))
             || (events[0].Partial? && events[0].text != [] && events[0].text != st.lastPartial
                 && st' == Scan(st.fullText, 0, events[0].text) && frame == PartialMsg(events[0].text))
    ensures exists m: nat, n: nat :: SilentTail(events, st, m, n)
    decreases |events|, 0
  {
    SilenceNeedsIdleRun(events[1..], st');
    var m': nat, n': nat :| SilentTail(events[1..], st', m', n');
    SentFirst(events, st, st', m', frame);
    ShiftTail(events, m', n');
    assert SilentTail(events, st, m' + 1, n' + 1);
  }

  /** `SilenceNeedsIdleRun` past an empty or repeated partial, which the counter counts. */
  lemma {:induction false} IdleRead(events: seq<AudioEvent>, st: Scan)
    requires st.silence <= SilenceLimit
    requires Listen(events, st).ending == Silence
    requires events != [] && Idle(events[0], st.lastPartial)
    ensures exists m: nat, n: nat :: SilentTail(events, st, m, n)
    decreases |events|, 0
  {
    var e := events[0];
    if st.silence + 1 > SilenceLimit {
      assert events[..1] == [e];
      assert Productive([e]) == [e] + Productive([e][1..]);
      assert SilentTail(events, st, 0, 1);
    } else {
      var st' := st.(silence := st.silence + 1);
      assert Listen(events, st) == Listen(events[1..], st');
      SilenceNeedsIdleRun(events[1..], st');
      var m': nat, n': nat :| SilentTail(events[1..], st', m', n');
      if Listen(events, st).frames == [] {
        assert events[..n' + 1][1..] == events[1..][..n'];
        assert SilentTail(events, st, 0, n' + 1);
      } else {
        ShiftTail(events, m', n');
        assert events[..m' + 1][1..] == events[1..][..m'];
        assert SilentTail(events, st, m' + 1, n' + 1);
      }
    }
  }

  /** A leading read that `Productive` drops leaves the prefix's productive reads as they were. */
  lemma SkipUnproductive(events: seq<AudioEvent>, n: nat)
    requires 0 < n <= |events|
    requires events[0].Overflow? || events[0] == Final([])
    ensures Productive(events[0..n]) == Productive(events[1..][0..n - 1])
  {
    assert events[0..n][1..] == events[1..][0..n - 1];
  }

  /** The reads between `m + 1` and `n + 1` are those between `m` and `n` after the first read. */
  lemma ShiftTail(events: seq<AudioEvent>, m: nat, n: nat)
    requires m <= n < |events|
    ensures events[m + 1..n + 1] == events[1..][m..n]
  {
    forall i | 0 <= i < n - m ensures events[m + 1..n + 1][i] == events[1..][m..n][i] {
      assert events[m + 1..n + 1][i] == events[m + 1 + i];
    }
  }

  /**
   * When the first read sends `frame` and moves the loop to `st'`, the first
   * `m + 1` reads send `frame` and then what the next `m` send from `st'`, and
   * `last_partial` follows.
   */
  lemma SentFirst(events: seq<AudioEvent>, st: Scan, st': Scan, m: nat, frame: ServerFrame)
    requires m < |events|
    requires Listen(events, st) == Extend([frame], Listen(events[1..], st'))
    requires Listen(events[..m + 1], st) == Extend([frame], Listen(events[..m + 1][1..], st'))
    requires st'.lastPartial == if frame.PartialMsg? then frame.text else st.lastPartial
    ensures Listen(events[..m + 1], st).frames == [frame] + Listen(events[1..][..m], st').frames
    ensures LastPartial(Listen(events, st).frames, st.lastPartial) == LastPartial(Listen(events[1..], st').frames, st'.lastPartial)
  {
    assert events[..m + 1][1..] == events[1..][..m];
    var fs := Listen(events, st).frames;
    assert fs[1..] == Listen(events[1..], st').frames;
  }

  // ---------------------------------------------------------------------------
  // Reads that change nothing

  /** The reads with every overflow and every empty final removed. */
  function Productive(events: seq<AudioEvent>): seq<AudioEvent>
    decreases |events|
  {
    if events == [] then []
    else if events[0].Overflow? || events[0] == Final([]) then Productive(events[1..])
    else [events[0]] + Productive(events[1..])
  }

  /** An overflow is retried without counting, and an empty final sends nothing and keeps the counter. */
  lemma {:induction false} UnproductiveReadsIgnored(events: seq<AudioEvent>, st: Scan)
    requires st.silence <= SilenceLimit
    ensures Listen(events, st) == Listen(Productive(events), st)
    decreases |events|, 1
  {
    if events != [] {
      if events[0].Overflow? || events[0] == Final([]) {
        UnproductiveReadsIgnored(events[1..], st);
      } else {
        ProductiveReadKept(events, st);
      }
    }
  }

  /** `UnproductiveReadsIgnored` when the first read is kept. */
  lemma {:induction false} ProductiveReadKept(events: seq<AudioEvent>, st: Scan)
    requires st.silence <= SilenceLimit
    requires events != [] && !events[0].Overflow? && events[0] != Final([])
    ensures Listen(events, st) == Listen(Productive(events), st)
    decreases |events|, 0
  {
    var rest := Productive(events[1..]);
    assert Productive(events) == [events[0]] + rest;
    assert ([events[0]] + rest)[1..] == rest;
    assert ([events[0]] + rest)[0] == events[0];
    match events[0]
    case ReadError(_) =>
    case Final(result) =>
      UnproductiveReadsIgnored(events[1..], Scan(st.fullText + result + " ", 0, st.lastPartial));
    case Partial(p) =>
      if p != [] && p != st.lastPartial {
        UnproductiveReadsIgnored(events[1..], Scan(st.fullText, 0, p));
      } else if st.silence + 1 <= SilenceLimit {
        UnproductiveReadsIgnored(events[1..], st.(silence := st.silence + 1));
      }
  }

  // ---------------------------------------------------------------------------
  // Partial frames

  /** The texts of the `partial_transcription` frames, in order. */
  function PartialTexts(frames: seq<ServerFrame>): seq<string>
    decreases |frames|
  {
    if frames == [] then []
    else if frames[0].PartialMsg? then [frames[0].text] + PartialTexts(frames[1..])
    else PartialTexts(frames[1..])
  }

  /** Each text is non-empty and differs from the one before it, the first from `last`. */
  predicate Fresh(texts: seq<string>, last: string)
    decreases |texts|
  {
    texts == [] || (texts[0] != [] && texts[0] != last && Fresh(texts[1..], texts[0]))
  }

  /**
   * A partial is sent only when it is non-empty and differs from the last
   * partial sent; a final result in between does not reset `last_partial`.
   */
  lemma {:induction false} PartialsAreFresh(events: seq<AudioEvent>, st: Scan)
    ensures Fresh(PartialTexts(Listen(events, st).frames), st.lastPartial)
    decreases |events|
  {
    if events != [] {
      match events[0]
      case Overflow => PartialsAreFresh(events[1..], st);
      case ReadError(_) =>
      case Final(result) =>
        if result == [] {
          if st.silence <= SilenceLimit {
            PartialsAreFresh(events[1..], st);
          }
        } else if !HasStopWord(result) {
          var full := st.fullText + result + " ";
          var rest := Listen(events[1..], Scan(full, 0, st.lastPartial));
          PartialsAreFresh(events[1..], Scan(full, 0, st.lastPartial));
          assert ([TranscriptionMsg(result, Trim(full))] + rest.frames)[1..] == rest.frames;
        } else {
          assert PartialTexts([TranscriptionMsg(result, Trim(st.fullText + result + " "))]) == [];
        }
      case Partial(p) =>
        if p != [] && p != st.lastPartial {
          var rest := Listen(events[1..], Scan(st.fullText, 0, p));
          PartialsAreFresh(events[1..], Scan(st.fullText, 0, p));
          assert ([PartialMsg(p)] + rest.frames)[1..] == rest.frames;
        } else if st.silence + 1 <= SilenceLimit {
          PartialsAreFresh(events[1..], st.(silence := st.silence + 1));
        }
    }
  }

  // ---------------------------------------------------------------------------
  // The accumulated text

  /** `full_text` after the non-empty finals `finals`: each one followed by a space. */
  function Spoken(finals: seq<string>): string
    decreases |finals|
  {
    if finals == [] then [] else Spoken(finals[..|finals| - 1]) + finals[|finals| - 1] + " "
  }

  /** The texts of the `transcription` frames, in order. */
  function FinalTexts(frames: seq<ServerFrame>): seq<string>
    decreases |frames|
  {
    if frames == [] then []
    else if frames[0].TranscriptionMsg? then [frames[0].text] + FinalTexts(frames[1..])
    else FinalTexts(frames[1..])
  }

  /**
   * Every `transcription` frame's `full_text` is the finals so far (after
   * `before`), joined by spaces and stripped.
   */
  predicate FullTextsAgree(frames: seq<ServerFrame>, before: seq<string>)
    decreases |frames|
  {
    frames == [] ||
    if frames[0].TranscriptionMsg? then
      && frames[0].fullText == Trim(Join(before + [frames[0].text], " "))
      && FullTextsAgree(frames[1..], before + [frames[0].text])
    else FullTextsAgree(frames[1..], before)
  }

  lemma {:induction false} JoinSnoc(words: seq<string>, w: string)
    requires words != []
    ensures Join(words + [w], " ") == Join(words, " ") + " " + w
    decreases |words|
  {
    if |words| == 1 {
      assert words + [w] == [words[0], w];
      assert [words[0], w][1..] == [w];
    } else {
      assert (words + [w])[1..] == words[1..] + [w];
      JoinSnoc(words[1..], w);
    }
  }

  /** The accumulated text is the space-joined finals with one space after the last. */
  lemma {:induction false} SpokenIsJoined(finals: seq<string>)
    ensures finals != [] ==> Spoken(finals) == Join(finals, " ") + " "
    ensures Trim(Spoken(finals)) == Trim(Join(finals, " "))
    decreases |finals|
  {
    if finals != [] {
      var init, w := finals[..|finals| - 1], finals[|finals| - 1];
      assert finals == init + [w];
      if init == [] {
        assert Spoken(init) == [];
        assert Join(finals, " ") == w;
      } else {
        SpokenIsJoined(init);
        JoinSnoc(init, w);
      }
      TrimAppendSpace(Join(finals, " "), ' ');
    }
  }

  /**
   * Starting from the text of the finals `before`, each `transcription`
   * frame's `full_text` is every final so far, space-joined and stripped, and
   * so is the text the loop returns.
   */
  lemma {:induction false} FullTextIsJoinedFinals(events: seq<AudioEvent>, before: seq<string>, silence: nat, last: string)
    ensures var t := Listen(events, Scan(Spoken(before), silence, last));
      && FullTextsAgree(t.frames, before)
      && (!t.ending.ReadFailed? ==> t.text == Trim(Join(before + FinalTexts(t.frames), " ")))
    decreases |events|
  {
    var st := Scan(Spoken(before), silence, last);
    var t := Listen(events, st);
    if events == [] {
      assert before + [] == before;
      SpokenIsJoined(before);
    } else {
      match events[0]
      case Overflow => FullTextIsJoinedFinals(events[1..], before, silence, last);
      case ReadError(_) =>
      case Final(result) =>
        if result == [] {
          if silence > SilenceLimit {
            assert before + [] == before;
            SpokenIsJoined(before);
          } else {
            FullTextIsJoinedFinals(events[1..], before, silence, last);
          }
        } else {
          var now := before + [result];
          assert now[..|now| - 1] == before;
          assert Spoken(now) == st.fullText + result + " ";
          SpokenIsJoined(now);
          var frame := TranscriptionMsg(result, Trim(Spoken(now)));
          if HasStopWord(result) {
            assert t.frames == [frame];
            assert FinalTexts(t.frames) == [result];
          } else {
            var rest := Listen(events[1..], Scan(Spoken(now), 0, last));
            FullTextIsJoinedFinals(events[1..], now, 0, last);
            assert t.frames == [frame] + rest.frames;
            assert t.frames[1..] == rest.frames;
            assert FinalTexts(t.frames) == [result] + FinalTexts(rest.frames);
            assert before + FinalTexts(t.frames) == now + FinalTexts(rest.frames);
          }
        }
      case Partial(p) =>
        if p != [] && p != last {
          var rest := Listen(events[1..], Scan(Spoken(before), 0, p));
          FullTextIsJoinedFinals(events[1..], before, 0, p);
          assert t.frames == [PartialMsg(p)] + rest.frames;
          assert t.frames[1..] == rest.frames;
        } else if silence + 1 > SilenceLimit {
          assert before + [] == before;
          SpokenIsJoined(before);
        } else {
          FullTextIsJoinedFinals(events[1..], before, silence + 1, last);
        }
    }
  }

  /** From the initial state: `full_text` of each frame and the returned text are the finals so far, joined and stripped. */
  lemma TranscriptIsJoinedFinals(events: seq<AudioEvent>)
    ensures var t := Listen(events, Start);
      && FullTextsAgree(t.frames, [])
      && (!t.ending.ReadFailed? ==> t.text == Trim(Join(FinalTexts(t.frames), " ")))
  {
    assert Spoken([]) == [];
    FullTextIsJoinedFinals(events, [], 0, []);
    assert [] + FinalTexts(Listen(events, Start).frames) == FinalTexts(Listen(events, Start).frames);
  }

  // ---------------------------------------------------------------------------
  // Stop words

  /** The frame is a `transcription` whose text holds a stop word. */
  predicate StopFrame(f: ServerFrame) {
    f.TranscriptionMsg? && HasStopWord(f.text)
  }

  /**
   * The loop ends on a stop word exactly when the last frame sent is a final
   * holding one, and no earlier final holds one.
   */
  lemma {:induction false} StopWordEndsLoop(events: seq<AudioEvent>, st: Scan)
    ensures var t := Listen(events, st);
      && (t.ending == StopWord <==> t.frames != [] && StopFrame(t.frames[|t.frames| - 1]))
      && forall i :: 0 <= i < |t.frames| - 1 ==> !StopFrame(t.frames[i])
    decreases |events|
  {
    if events != [] {
      match events[0]
      case Overflow => StopWordEndsLoop(events[1..], st);
      case ReadError(_) =>
      case Final(result) =>
        if result == [] {
          if st.silence <= SilenceLimit {
            StopWordEndsLoop(events[1..], st);
          }
        } else if !HasStopWord(result) {
          var full := st.fullText + result + " ";
          StopWordEndsLoop(events[1..], Scan(full, 0, st.lastPartial));
          var rest := Listen(events[1..], Scan(full, 0, st.lastPartial));
          var fs := [TranscriptionMsg(result, Trim(full))] + rest.frames;
          assert forall i :: 0 < i < |fs| ==> fs[i] == rest.frames[i - 1];
        }
      case Partial(p) =>
        if p != [] && p != st.lastPartial {
          StopWordEndsLoop(events[1..], Scan(st.fullText, 0, p));
          var rest := Listen(events[1..], Scan(st.fullText, 0, p));
          var fs := [PartialMsg(p)] + rest.frames;
          assert forall i :: 0 < i < |fs| ==> fs[i] == rest.frames[i - 1];
        } else if st.silence + 1 <= SilenceLimit {
          StopWordEndsLoop(events[1..], st.(silence := st.silence + 1));
        }
    }
  }

  /** The test is a substring test on the lower-cased text: "Nonstop" stops the loop. */
  lemma SubstringStopWord()
    ensures HasStopWord("Nonstop")
  {
    var l := Lower("Nonstop");
    assert l[3..7] == "stop";
    ContainsAt(l, "stop", 3);
  }
}
