/**
 * `WaveManager`: starts waves on request, reacts to the end of phase one, runs the
 * phase-two countdown and moves on to the next wave. Coroutines become explicit steps:
 * each suspended `StartPhaseTwo` is an entry of `runs`, and each resumption after a
 * `WaitForSeconds` is a call of ResumeAfterDelay or ResumeCountdown. What the manager
 * tells other components (its three events and the spawner's `StartWave`) is appended to
 * `signals`.
 */
module Waves {
  import opened Wrappers

  datatype Wave = Wave(poolOneCount: int, poolTwoCount: int, phaseTwoDelay: real, phaseTwoDuration: real)

  datatype Signal =
    | WaveStarted                                 // OnWaveStart
    | SpawnerStartWave(minions: int, tanks: int)  // enemySpawner.StartWave
    | PhaseOneCompleted                           // OnPhaseOneComplete
    | WaveEnded                                   // OnWaveEnd

  /** Why a press of the start button did or did not start a wave. */
  datatype StartResult = PathNotValid | NoWavesLeft | WaveNotReady | WaveLaunched

  /** A suspended `StartPhaseTwo`: waiting out its delay, or inside its one-second countdown loop. */
  datatype PhaseTwoRun = AwaitingDelay(delay: real, duration: real) | CountingDown

  /** `Mathf.CeilToInt`: the least integer not below r. */
  function CeilToInt(r: real): (n: int)
    ensures r <= n as real < r + 1.0
  {
    -((-r).Floor)
  }

  /** The index after a finished wave: the next wave if there is one, else the same. */
  function NextIndex(index: int, count: int): (next: int)
    ensures 0 <= index < count ==> index <= next < count
    ensures next == index || next == index + 1
  {
    if index + 1 < count then index + 1 else index
  }

  /** The runs without the one at position k. */
  function Without(runs: seq<PhaseTwoRun>, k: nat): (r: seq<PhaseTwoRun>)
    requires k < |runs|
    ensures |r| == |runs| - 1
  {
    runs[..k] + runs[k + 1..]
  }

  class WaveManager {
    const waves: seq<Wave>
    var currentWaveIndex: int
    var waveReady: bool
    var phaseTwoActive: bool
    var timeLeft: int
    var runs: seq<PhaseTwoRun>
    var signals: seq<Signal>

    /** The index starts at the first wave and stays on a wave whenever there are waves. */
    ghost predicate Valid()
      reads this
    {
      0 <= currentWaveIndex && (currentWaveIndex < |waves| || currentWaveIndex == 0)
    }

    /** A new manager after `Start`: first wave, ready, nothing running. */
    constructor(waves: seq<Wave>)
      ensures this.waves == waves && currentWaveIndex == 0 && waveReady && !phaseTwoActive
      ensures timeLeft == 0 && runs == [] && signals == []
      ensures Valid()
    {
      this.waves := waves;
      currentWaveIndex := 0;
      waveReady := true;
      phaseTwoActive := false;
      timeLeft := 0;
      runs := [];
      signals := [];
    }

    /**
     * `UpdateWaveUI`'s enemy-count text: the current wave's two counts, read only when the
     * index is inside the wave list; a manager with waves always shows them.
     */
    function EnemyCountText(): (counts: Option<(int, int)>)
      requires Valid()
      reads this
      ensures counts.Some? ==> currentWaveIndex < |waves|
      ensures |waves| > 0 ==> counts == Some((waves[currentWaveIndex].poolOneCount, waves[currentWaveIndex].poolTwoCount))
    {
      if currentWaveIndex < |waves| then
        Some((waves[currentWaveIndex].poolOneCount, waves[currentWaveIndex].poolTwoCount))
      else None
    }

    /** `StartWave`: for an index inside the list, mark the wave running and ask the spawner for its enemies. */
    method StartWave(waveIndex: int) returns (started: bool)
      modifies this`waveReady, this`phaseTwoActive, this`signals
      ensures started == (0 <= waveIndex < |waves|)
      ensures !started ==> waveReady == old(waveReady) && phaseTwoActive == old(phaseTwoActive) && signals == old(signals)
      ensures started ==>
        && !waveReady && !phaseTwoActive
        && signals == old(signals) + [WaveStarted, SpawnerStartWave(waves[waveIndex].poolOneCount, waves[waveIndex].poolTwoCount)]
    {
      if waveIndex < 0 || waveIndex >= |waves| {
        return false;
      }
      waveReady := false;
      phaseTwoActive := false;
      var selectedWave := waves[waveIndex];
      signals := signals + [WaveStarted];
      signals := signals + [SpawnerStartWave(selectedWave.poolOneCount, selectedWave.poolTwoCount)];
      return true;
    }

    /**
     * `StartWaveFromButton`: refused while the path is not valid, after the wave list is used
     * up, or while a wave is running; otherwise the current wave starts.
     */
    method StartWaveFromButton(pathValid: bool) returns (result: StartResult)
      requires Valid()
      modifies this`waveReady, this`phaseTwoActive, this`signals
      ensures Valid()
      ensures result == (if !pathValid then PathNotValid
                         else if currentWaveIndex >= |waves| then NoWavesLeft
                         else if !old(waveReady) then WaveNotReady
                         else WaveLaunched)
      ensures result != WaveLaunched ==>
        waveReady == old(waveReady) && phaseTwoActive == old(phaseTwoActive) && signals == old(signals)
      ensures result == WaveLaunched ==>
        && !waveReady && !phaseTwoActive
        && signals == old(signals) + [WaveStarted, SpawnerStartWave(waves[currentWaveIndex].poolOneCount,
                                                                    waves[currentWaveIndex].poolTwoCount)]
    {
      if !pathValid {
        return PathNotValid;
      }
      if currentWaveIndex >= |waves| {
        return NoWavesLeft;
      }
      if waveReady {
        var _ := StartWave(currentWaveIndex);
        return WaveLaunched;
      }
      return WaveNotReady;
    }

    /**
     * `OnWavePhaseOneComplete`: ignored while phase two is active; otherwise announces the end
     * of phase one and suspends a new phase-two run for the current wave's delay.
     */
    method OnWavePhaseOneComplete()
      requires Valid() && |waves| > 0
      modifies this`signals, this`runs
      ensures phaseTwoActive ==> signals == old(signals) && runs == old(runs)
      ensures !phaseTwoActive ==>
        && signals == old(signals) + [PhaseOneCompleted]
        && runs == old(runs) + [AwaitingDelay(waves[currentWaveIndex].phaseTwoDelay, waves[currentWaveIndex].phaseTwoDuration)]
    {
      if phaseTwoActive {
        return;
      }
      signals := signals + [PhaseOneCompleted];
      var wave := waves[currentWaveIndex];
      runs := runs + [AwaitingDelay(wave.phaseTwoDelay, wave.phaseTwoDuration)];
    }

    /** `EndWave`: the wave is over, the button is ready again, and the index moves on if a wave is left. */
    method EndWave()
      requires Valid()
      modifies this`phaseTwoActive, this`waveReady, this`signals, this`currentWaveIndex
      ensures Valid()
      ensures !phaseTwoActive && waveReady
      ensures signals == old(signals) + [WaveEnded]
      ensures currentWaveIndex == NextIndex(old(currentWaveIndex), |waves|)
    {
      phaseTwoActive := false;
      waveReady := true;
      signals := signals + [WaveEnded];
      if currentWaveIndex + 1 < |waves| {
        currentWaveIndex := currentWaveIndex + 1;
      }
    }

    /**
     * A run's delay has passed: phase two becomes active and the countdown starts at the
     * duration rounded up; a countdown with nothing to count ends the wave at once.
     */
    method ResumeAfterDelay(k: nat)
      requires Valid() && k < |runs| && runs[k].AwaitingDelay?
      modifies this
      ensures Valid()
      ensures timeLeft == CeilToInt(old(runs)[k].duration)
      ensures timeLeft > 0 ==> phaseTwoActive && runs == old(runs)[k := CountingDown] && signals == old(signals)
                               && currentWaveIndex == old(currentWaveIndex) && waveReady == old(waveReady)
      ensures timeLeft <= 0 ==> !phaseTwoActive && waveReady && runs == Without(old(runs), k)
                                && signals == old(signals) + [WaveEnded]
                                && currentWaveIndex == NextIndex(old(currentWaveIndex), |waves|)
    {
      phaseTwoActive := true;
      timeLeft := CeilToInt(runs[k].duration);
      if timeLeft > 0 {
        runs := runs[k := CountingDown];
      } else {
        runs := Without(runs, k);
        EndWave();
      }
    }

    /** A second of the countdown has passed: one less to go, and the wave ends when none is left. */
    method ResumeCountdown(k: nat)
      requires Valid() && k < |runs| && runs[k] == CountingDown
      modifies this
      ensures Valid()
      ensures timeLeft == old(timeLeft) - 1
      ensures timeLeft > 0 ==> runs == old(runs) && signals == old(signals) && phaseTwoActive == old(phaseTwoActive)
                               && currentWaveIndex == old(currentWaveIndex) && waveReady == old(waveReady)
      ensures timeLeft <= 0 ==> !phaseTwoActive && waveReady && runs == Without(old(runs), k)
                                && signals == old(signals) + [WaveEnded]
                                && currentWaveIndex == NextIndex(old(currentWaveIndex), |waves|)
    {
      timeLeft := timeLeft - 1;
      if timeLeft <= 0 {
        runs := Without(runs, k);
        EndWave();
      }
    }

    /**
     * A lone phase-two run resumed until it finishes: it counts down once per second from the
     * rounded-up duration, terminates, and ends the wave exactly once.
     */
    method RunPhaseTwo() returns (seconds: nat)
      requires Valid() && |runs| == 1 && runs[0].AwaitingDelay?
      modifies this
      ensures Valid()
      ensures var n := CeilToInt(old(runs)[0].duration);
        && seconds == (if n > 0 then n else 0)
        && timeLeft == (if n > 0 then 0 else n)
      ensures runs == [] && !phaseTwoActive && waveReady
      ensures signals == old(signals) + [WaveEnded]
      ensures currentWaveIndex == NextIndex(old(currentWaveIndex), |waves|)
    {
      ghost var n := CeilToInt(runs[0].duration);
      ResumeAfterDelay(0);
      seconds := 0;
      while |runs| > 0
        invariant Valid()
        invariant runs == [] || (runs == [CountingDown] && timeLeft > 0)
        invariant runs == [] ==> !phaseTwoActive && waveReady && signals == old(signals) + [WaveEnded]
                                 && currentWaveIndex == NextIndex(old(currentWaveIndex), |waves|)
                                 && timeLeft == (if n > 0 then 0 else n)
        invariant runs != [] ==> signals == old(signals) && currentWaveIndex == old(currentWaveIndex)
        invariant n > 0 ==> seconds + timeLeft == n
        invariant n <= 0 ==> seconds == 0
        decreases if runs == [] then 0 else timeLeft
      {
        ResumeCountdown(0);
        seconds := seconds + 1;
      }
    }

    /**
     * A whole wave with a valid path and nothing else running: it starts, phase one ends,
     * phase two counts down, and the wave ends once, leaving the manager ready on the next
     * wave, or on the last wave again when it was the last.
     */
    method PlayWave() returns (seconds: nat)
      requires Valid() && |waves| > 0 && waveReady && runs == []
      modifies this
      ensures Valid() && waveReady && !phaseTwoActive && runs == []
      ensures var w := waves[old(currentWaveIndex)];
        signals == old(signals) + [WaveStarted, SpawnerStartWave(w.poolOneCount, w.poolTwoCount), PhaseOneCompleted, WaveEnded]
      ensures currentWaveIndex == NextIndex(old(currentWaveIndex), |waves|)
    {
      var result := StartWaveFromButton(true);
      OnWavePhaseOneComplete();
      seconds := RunPhaseTwo();
    }
  }
}
