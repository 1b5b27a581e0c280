/** Remainder facts about the music's step counter, kept apart from the
    sequencer so that their proofs see no other definitions. */
module StepArith {
  /** The parity of a step is the parity of its remainder modulo 4. */
  lemma Mod4Parity(step: nat)
    ensures step % 2 == (step % 4) % 2
  {
    var q, r := step / 4, step % 4;
    assert step == 4 * q + r;
    if r == 0 {
      assert step == 2 * (2 * q);
    } else if r == 1 {
      assert step == 2 * (2 * q) + 1;
    } else if r == 2 {
      assert step == 2 * (2 * q + 1);
    } else {
      assert step == 2 * (2 * q + 1) + 1;
    }
  }
}

/**
 * The step sequencer of the background music.  Each tick plays the bass
 * note of the current step, the lead note on even steps and the lead an
 * octave up on steps that are 3 modulo 4, then advances the step.  Notes are
 * indices into the eight-note bass and lead tables.
 */
module Music {
  import opened StepArith

  /** The length of both note tables. */
  const PATTERN_LENGTH: nat := 8

  /** The three voices, with the waveform each is played with. */
  datatype Voice =
    | Bass        // square wave, at the tick
    | Lead        // triangle wave, 30 ms after the tick
    | OctaveLead  // sine wave at twice the lead's frequency, 70 ms after the tick

  /** One tone: a voice and the index of its note in that voice's table. */
  datatype Tone = Tone(voice: Voice, note: nat)

  /** The tones one tick plays at a given step, in the order they are scheduled. */
  function TickTones(step: nat): (r: seq<Tone>)
    ensures 1 <= |r| <= 2
    ensures |r| == 1 + (if step % 2 == 0 then 1 else 0) + (if step % 4 == 3 then 1 else 0)
    ensures r[0] == Tone(Bass, step % PATTERN_LENGTH)
    ensures forall i :: 0 <= i < |r| ==> r[i].note == step % PATTERN_LENGTH
    ensures Tone(Lead, step % PATTERN_LENGTH) in r <==> step % 2 == 0
    ensures Tone(OctaveLead, step % PATTERN_LENGTH) in r <==> step % 4 == 3
  {
    var n := step % PATTERN_LENGTH;
    [Tone(Bass, n)]
      + (if step % 2 == 0 then [Tone(Lead, n)] else [])
      + (if step % 4 == 3 then [Tone(OctaveLead, n)] else [])
  }

  /** The lead and its octave never sound on the same tick, and exactly the
      steps that are 1 modulo 4 play the bass alone. */
  lemma LeadAndOctaveExclusive(step: nat)
    ensures !(Tone(Lead, step % PATTERN_LENGTH) in TickTones(step) &&
              Tone(OctaveLead, step % PATTERN_LENGTH) in TickTones(step))
    ensures |TickTones(step)| == 1 <==> step % 4 == 1
  {
    var r := step % 4;
    Mod4Parity(step);
    var n := step % PATTERN_LENGTH;
    var t := TickTones(step);
    if r == 0 {
      assert t == [Tone(Bass, n), Tone(Lead, n)];
    } else if r == 1 {
      assert t == [Tone(Bass, n)];
    } else if r == 2 {
      assert t == [Tone(Bass, n), Tone(Lead, n)];
    } else {
      assert t == [Tone(Bass, n), Tone(OctaveLead, n)];
    }
  }

  /** The music repeats every eight steps. */
  lemma {:induction false} TickTonesPeriodic(step: nat)
    ensures TickTones(step + PATTERN_LENGTH) == TickTones(step)
  {
    var q, r := step / 4, step % 4;
    assert step == 4 * q + r;
    assert step + 8 == 4 * (q + 2) + r;
    assert (step + 8) % 4 == r;
    var q8, r8 := step / 8, step % 8;
    assert step + 8 == 8 * (q8 + 1) + r8;
    assert (step + 8) % 8 == r8;
    Mod4Parity(step);
    Mod4Parity(step + 8);
  }

  /** The sequencer's only game-visible state: the step counter. */
  class MusicLoop {
    var step: nat

    constructor ()
      ensures step == 0
    {
      step := 0;
    }

    /** One tick of the 240 ms timer: the tones of the current step, then the
        next step. */
    method Tick() returns (tones: seq<Tone>)
      modifies this
      ensures tones == TickTones(old(step))
      ensures step == old(step) + 1
    {
      var s := step;
      var n := s % PATTERN_LENGTH;
      tones := [Tone(Bass, n)];
      if s % 2 == 0 {
        tones := tones + [Tone(Lead, n)];
      }
      if s % 4 == 3 {
        tones := tones + [Tone(OctaveLead, n)];
      }
      step := step + 1;
    }
  }
}
