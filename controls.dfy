/** The play button and the track selector of src/main.js: two string flags
    kept in the button's dataset, playing and pausing, which the click
    handler and the track-change handler read and rewrite. The audio calls
    the handlers make are reported as a Command. */
module Controls {

  const Yes: string := "yes"
  const No: string := "no"

  /** The button's dataset. */
  datatype Flags = Flags(playing: string, pausing: string)

  /** The audio call a handler makes: start the current track afresh, resume
      it, or pause it. */
  datatype Command = PlayNew | Resume | Pause

  /** The state the flags describe, as the click handler reads them. */
  datatype Mode = Stopped | Playing | Paused

  /** Flags as the handlers write them: each one "yes" or "no". */
  predicate WellFormed(f: Flags) {
    (f.playing == Yes || f.playing == No) && (f.pausing == Yes || f.pausing == No)
  }

  /** The click handler's reading of the flags: playing == "no" is checked
      first, then pausing == "yes". */
  function ModeOf(f: Flags): Mode {
    if f.playing == No then Stopped
    else if f.pausing == Yes then Paused
    else Playing
  }

  /** One click of the play button: the new flags and the audio call made. */
  function Click(f: Flags): (Flags, Command) {
    if f.playing == No then (Flags(Yes, No), PlayNew)
    else if f.pausing == Yes then (f.(pausing := No), Resume)
    else (f.(pausing := Yes), Pause)
  }

  /** The three-state machine a click runs: a stopped or paused track plays,
      a playing one pauses; the call made is the one the mode calls for, and
      well-formed flags stay well-formed. */
  lemma ClickCycle(f: Flags)
    ensures var (g, c) := Click(f);
      && (ModeOf(f) == Stopped ==> ModeOf(g) == Playing && c == PlayNew && g == Flags(Yes, No))
      && (ModeOf(f) == Paused ==> ModeOf(g) == Playing && c == Resume && g.playing == f.playing)
      && (ModeOf(f) == Playing ==> ModeOf(g) == Paused && c == Pause && g.playing == f.playing)
      && (WellFormed(f) ==> WellFormed(g))
  {
  }

  /** Pausing and then resuming a playing track gives the flags back. */
  lemma PauseResume(f: Flags)
    requires WellFormed(f) && ModeOf(f) == Playing
    ensures Click(f).1 == Pause && Click(Click(f).0).1 == Resume
    ensures Click(Click(f).0).0 == f
  {
  }

  /** A click always ends with a track playing or paused, never stopped. */
  lemma ClickNeverStops(f: Flags)
    ensures ModeOf(Click(f).0) != Stopped
  {
  }

  /** The track-change handler as written: its test assigns "yes" to playing
      instead of comparing, the assignment's value is the non-empty (so truthy)
      string "yes", and the branch always runs. The result is the new flags
      and whether a pause was issued. */
  function TrackChangeAsWritten(f: Flags): (r: (Flags, bool))
    ensures r == (Flags(No, Yes), true)
  {
    var f1 := f.(playing := Yes);
    var test := f1.playing;
    if test != "" then (f1.(playing := No, pausing := Yes), true) else (f1, false)
  }

  /** The track-change handler as its comment describes it: pause only when
      the current track is playing. */
  function TrackChange(f: Flags): (r: (Flags, bool))
    ensures r.1 <==> f.playing == Yes
    ensures r.1 ==> r.0 == Flags(No, Yes)
    ensures !r.1 ==> r.0 == f
  {
    if f.playing == Yes then (Flags(No, Yes), true) else (f, false)
  }

  /** With well-formed flags, a track change leaves the button stopped, so the
      next click starts the new track; a pause is issued exactly when a track
      was playing or paused. */
  lemma TrackChangeStops(f: Flags)
    requires WellFormed(f)
    ensures ModeOf(TrackChange(f).0) == Stopped && WellFormed(TrackChange(f).0)
    ensures TrackChange(f).1 <==> ModeOf(f) != Stopped
    ensures Click(TrackChange(f).0) == (Flags(Yes, No), PlayNew)
  {
  }

  /** The two handlers agree whenever a track is loaded (playing == "yes"). */
  lemma TrackChangeAgreesWhenPlaying(f: Flags)
    requires f.playing == Yes
    ensures TrackChangeAsWritten(f) == TrackChange(f)
  {
  }

  /** Where they part: on a button that never started, the handler as written
      still issues a pause and rewrites the flags. */
  lemma TrackChangePausesWhenStopped()
    ensures TrackChangeAsWritten(Flags(No, No)).1
    ensures !TrackChange(Flags(No, No)).1 && TrackChange(Flags(No, No)).0 == Flags(No, No)
  {
  }

  /** The play button element, whose dataset the handlers mutate. */
  class PlayButton {
    var playing: string
    var pausing: string

    function Current(): Flags
      reads this
    {
      Flags(playing, pausing)
    }

    /** The flags start as the page's markup sets them. */
    constructor (playing: string, pausing: string)
      ensures Current() == Flags(playing, pausing)
    {
      this.playing := playing;
      this.pausing := pausing;
    }

    /** playButton.onclick. */
    method OnClick() returns (c: Command)
      modifies this
      ensures (Current(), c) == Click(old(Current()))
    {
      if playing == No {
        c := PlayNew;
        playing := Yes;
        pausing := No;
      } else if pausing == Yes {
        c := Resume;
        pausing := No;
      } else {
        c := Pause;
        pausing := Yes;
      }
    }

    /** trackSelect.onchange, with the comparison its comment intends. */
    method OnTrackChange() returns (paused: bool)
      modifies this
      ensures (Current(), paused) == TrackChange(old(Current()))
    {
      paused := false;
      if playing == Yes {
        paused := true;
        playing := No;
        pausing := Yes;
      }
    }
  }
}
