/** The pause controller: a running/paused flag that remote clients flip with
    `pause` and `resume`, and a checkpoint `Handle` that the host loop calls
    to honour a pending pause.

    The wait is cross-thread in the system: the host thread polls the flag
    once a second until a serving thread clears it.  Here it is sequential:
    `Handle` is told after how many one-second sleeps the other thread's
    `resume` lands, and the loop performs that `resume` itself at that tick. */
module PauseControl {

  const PausingLine := "pausing..."
  const ResumingLine := "resuming"

  class Controller {
    var paused: bool

    /** A fresh controller is running. */
    constructor ()
      ensures !paused
    {
      paused := false;
    }

    /** `exposed_pause`: paused afterwards, whatever the state before. */
    method Pause()
      modifies this
      ensures paused
    {
      paused := true;
    }

    /** `exposed_resume`: running afterwards, whatever the state before. */
    method Resume()
      modifies this
      ensures !paused
    {
      paused := false;
    }

    /** `handle`: returns at once, logging nothing, when running; when paused,
        logs "pausing...", sleeps until the flag is cleared and logs "resuming"
        -- one line each, however many ticks pass.  `resumeAfter` is the number
        of sleeps the loop completes before it sees the flag cleared (0: the
        resume landed between the first test of the flag and the first poll).
        `log` is what the call emits and `slept` the number of sleeps. */
    method Handle(resumeAfter: nat) returns (log: seq<string>, slept: nat)
      modifies this
      ensures !paused
      ensures log == if old(paused) then [PausingLine, ResumingLine] else []
      ensures slept == if old(paused) then resumeAfter else 0
    {
      log := [];
      var wasPausing := false;
      if paused {
        log := log + [PausingLine];
        wasPausing := true;
      }
      slept := 0;
      if wasPausing && slept == resumeAfter {
        Resume();  // another thread's resume, before the first poll
      }
      while paused
        invariant paused ==> wasPausing && slept < resumeAfter
        invariant wasPausing ==> slept <= resumeAfter
        invariant wasPausing ==> (paused || slept == resumeAfter)
        invariant !wasPausing ==> slept == 0 && !paused
        invariant log == if wasPausing then [PausingLine] else []
        invariant wasPausing == old(paused)
        decreases resumeAfter - slept
      {
        slept := slept + 1;  // time.sleep(1)
        if slept == resumeAfter {
          Resume();  // another thread's resume, during this sleep
        }
      }
      if wasPausing {
        log := log + [ResumingLine];
      }
    }
  }

  /** Pausing twice is pausing once, resuming a running controller changes
      nothing, and a checkpoint between a pause and a resume logs the pair. */
  method PauseResumeScenario()
  {
    var c := new Controller();
    var log, slept := c.Handle(5);
    assert log == [] && slept == 0;
    c.Pause();
    c.Pause();
    assert c.paused;
    log, slept := c.Handle(3);
    assert log == ["pausing...", "resuming"] && slept == 3;
    c.Resume();
    assert !c.paused;
  }
}
