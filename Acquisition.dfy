/** The acquisition script at the bottom of OSACode_ForFiO.py: it builds a
    fresh driver object per iteration, fetches one raw trace, keeps it only
    when it parses and has as many samples as the first accepted trace, and
    saves every kept trace with a wavelength axis from 600 nm to 1100 nm,
    until the required number of traces (`RequiredIterations` in the
    script) are saved. Each iteration's connection attempt and
    instrument reply come from a finite script of attempts; a script that
    runs out before enough traces are kept ends the run. */
module Acquisition {
  import opened Wrappers
  import opened Wire
  import opened Payload
  import opened Driver

  /** How many consistent traces the script collects. */
  const RequiredIterations: nat := 50

  /** The wavelength range, in nm, of both the sweep and the saved axis. */
  const ScriptStart: string := "600"
  const ScriptStop: string := "1100"

  const DeviceAddress: string := "168.176.118.23"
  const DevicePort: int := 10001

  /** One iteration's connection: how `open_socket` turns out and what the
      instrument then delivers. */
  datatype Attempt = Attempt(link: Link, replies: seq<Delivery>)

  /** The raw trace a fresh driver object returns for one attempt. */
  function Response(attempt: Attempt): Option<string>
  {
    QueryResult(Opened(None, attempt.link, attempt.replies))
  }

  /** The raw traces of a series of attempts, one fresh driver object each. */
  function Responses(attempts: seq<Attempt>): (rs: seq<Option<string>>)
    ensures |rs| == |attempts|
  {
    if attempts == [] then []
    else Responses(attempts[..|attempts| - 1]) + [Response(attempts[|attempts| - 1])]
  }

  /** The i-th raw trace is what the i-th attempt returns. */
  lemma {:induction false} ResponsesAt(attempts: seq<Attempt>, i: nat)
    requires i < |attempts|
    ensures Responses(attempts)[i] == Response(attempts[i])
    decreases |attempts|
  {
    var init := attempts[..|attempts| - 1];
    if i < |init| {
      ResponsesAt(init, i);
    }
  }

  lemma {:induction false} ResponsesNext(attempts: seq<Attempt>, n: nat)
    requires n < |attempts|
    ensures Responses(attempts[..n + 1]) == Responses(attempts[..n]) + [Response(attempts[n])]
  {
    assert attempts[..n + 1][..n] == attempts[..n];
  }

  /** The axis saved beside `points` samples: `np.linspace(600, 1100, points)`. */
  function ScriptAxis(points: nat): Axis
  {
    Axis(ScriptStart, ScriptStop, points)
  }

  /** One CSV file: its axis, its samples and the iteration number in its name. */
  datatype Save = Save(axis: Axis, samples: seq<string>, index: nat)

  /** Why the script stops with an exception. */
  datatype ScriptError = MissingWavelengthArguments | BadSample(token: string)

  datatype Outcome = Completed | Exhausted | Crashed(error: ScriptError)

  /** The script's variables between iterations: `iteration_count`,
      `target_data_length`, the files saved so far, and how many iterations
      ended with the sleep or were discarded. */
  datatype Tally = Tally(count: nat, target: Option<nat>, saves: seq<Save>, sleeps: nat, discards: nat)

  /** What one run leaves behind: how it ended, the script's variables, and
      the raw trace each iteration received, in order. */
  datatype Run = Run(outcome: Outcome, tally: Tally, traces: seq<Option<string>>)

  /** The samples of a response, when it parses. */
  function Parsed(response: Option<string>): Option<seq<string>>
  {
    var parsed := ParseResponse(response);
    if parsed.Ok? then Some(parsed.value) else None
  }

  /** `target_data_length` after the responses `rs`: the sample count of the
      first response that parses. */
  function FirstParsed(rs: seq<Option<string>>): Option<nat>
  {
    if rs == [] then None
    else
      var earlier := FirstParsed(rs[..|rs| - 1]);
      var last := Parsed(rs[|rs| - 1]);
      if earlier.Some? then earlier
      else if last.Some? then Some(|last.value|)
      else None
  }

  /** The samples of every response in `rs` that parses to exactly `n`
      samples, in order. */
  function Consistent(rs: seq<Option<string>>, n: nat): (kept: seq<seq<string>>)
    ensures |kept| <= |rs|
    ensures forall k :: 0 <= k < |kept| ==> |kept[k]| == n
  {
    if rs == [] then []
    else
      var last := Parsed(rs[|rs| - 1]);
      Consistent(rs[..|rs| - 1], n) + (if last.Some? && |last.value| == n then [last.value] else [])
  }

  function SavedSamples(saves: seq<Save>): (r: seq<seq<string>>)
    ensures |r| == |saves|
    ensures forall k :: 0 <= k < |saves| ==> r[k] == saves[k].samples
  {
    seq(|saves|, k requires 0 <= k < |saves| => saves[k].samples)
  }

  /** No target is set exactly while no response has parsed; once one is,
      it is the sample count of the first response that parsed. */
  lemma {:induction false} FirstParsedSpec(rs: seq<Option<string>>)
    ensures FirstParsed(rs).None? <==> forall j :: 0 <= j < |rs| ==> Parsed(rs[j]).None?
    ensures FirstParsed(rs).Some? ==>
              exists j :: 0 <= j < |rs| && Parsed(rs[j]).Some? &&
                (forall i :: 0 <= i < j ==> Parsed(rs[i]).None?) &&
                FirstParsed(rs).value == |Parsed(rs[j]).value|
    decreases |rs|
  {
    if rs != [] {
      var init := rs[..|rs| - 1];
      FirstParsedSpec(init);
      assert forall j :: 0 <= j < |init| ==> init[j] == rs[j];
      if FirstParsed(init).Some? {
        var j :| 0 <= j < |init| && Parsed(init[j]).Some? &&
                 (forall i :: 0 <= i < j ==> Parsed(init[i]).None?) &&
                 FirstParsed(init).value == |Parsed(init[j]).value|;
        assert rs[j] == init[j];
      } else if FirstParsed(rs).Some? {
        var j := |rs| - 1;
        assert forall i :: 0 <= i < j ==> Parsed(rs[i]).None? by {
          forall i | 0 <= i < j ensures Parsed(rs[i]).None? {
            assert rs[i] == init[i];
          }
        }
      }
    }
  }

  /** Every kept trace is the parse of some response. */
  lemma {:induction false} ConsistentFrom(rs: seq<Option<string>>, n: nat, k: nat)
    requires k < |Consistent(rs, n)|
    ensures exists j :: 0 <= j < |rs| && Parsed(rs[j]) == Some(Consistent(rs, n)[k])
    decreases |rs|
  {
    var init := rs[..|rs| - 1];
    if k < |Consistent(init, n)| {
      ConsistentFrom(init, n, k);
      var j :| 0 <= j < |init| && Parsed(init[j]) == Some(Consistent(init, n)[k]);
      assert rs[j] == init[j];
    } else {
      assert Parsed(rs[|rs| - 1]) == Some(Consistent(rs, n)[k]);
    }
  }

  /** One more response: the target stays if set, else the response sets it
      if it parses. */
  lemma {:induction false} FirstParsedSnoc(rs: seq<Option<string>>, r: Option<string>)
    ensures FirstParsed(rs + [r]) ==
              if FirstParsed(rs).Some? then FirstParsed(rs)
              else if Parsed(r).Some? then Some(|Parsed(r).value|)
              else None
  {
    assert (rs + [r])[..|rs|] == rs;
  }

  /** One more response: it is kept exactly when it parses to `n` samples. */
  lemma {:induction false} ConsistentSnoc(rs: seq<Option<string>>, r: Option<string>, n: nat)
    ensures Consistent(rs + [r], n) ==
              Consistent(rs, n) + (if Parsed(r).Some? && |Parsed(r).value| == n then [Parsed(r).value] else [])
  {
    assert (rs + [r])[..|rs|] == rs;
  }

  /** Before any response parses, nothing is kept. */
  lemma {:induction false} NothingBeforeTarget(rs: seq<Option<string>>, n: nat)
    requires FirstParsed(rs).None?
    ensures Consistent(rs, n) == []
    decreases |rs|
  {
    if rs != [] {
      NothingBeforeTarget(rs[..|rs| - 1], n);
    }
  }

  lemma {:induction false} SavedSamplesSnoc(saves: seq<Save>, save: Save)
    ensures SavedSamples(saves + [save]) == SavedSamples(saves) + [save.samples]
  {
  }

  /** Once set, `target_data_length` never changes. */
  lemma {:induction false} TargetFixed(rs: seq<Option<string>>, more: seq<Option<string>>)
    requires FirstParsed(rs).Some?
    ensures FirstParsed(rs + more) == FirstParsed(rs)
    decreases |more|
  {
    if more != [] {
      var init := more[..|more| - 1];
      assert (rs + more)[..|rs + more| - 1] == rs + init;
      TargetFixed(rs, init);
    } else {
      assert rs + more == rs;
    }
  }

  /** Keeping consistent traces distributes over consecutive batches of responses. */
  lemma {:induction false} ConsistentAppend(a: seq<Option<string>>, b: seq<Option<string>>, n: nat)
    ensures Consistent(a + b, n) == Consistent(a, n) + Consistent(b, n)
    decreases |b|
  {
    if b == [] {
      assert a + b == a;
    } else {
      var init := b[..|b| - 1];
      assert (a + b)[..|a + b| - 1] == a + init;
      assert (a + b)[|a + b| - 1] == b[|b| - 1];
      ConsistentAppend(a, init, n);
    }
  }

  /** The first trace that parses is always kept: it fixes the length every
      later trace is compared with. */
  lemma {:induction false} FirstParsedKept(rs: seq<Option<string>>)
    requires FirstParsed(rs).Some?
    ensures |Consistent(rs, FirstParsed(rs).value)| >= 1
    decreases |rs|
  {
    var init := rs[..|rs| - 1];
    if FirstParsed(init).Some? {
      FirstParsedKept(init);
    }
  }

  /** One iteration's `AQ6370D(...).get_single_trace(600, 1100)` on a fresh
      driver object. */
  method Fetch(attempt: Attempt) returns (text: Option<string>)
    ensures text == Response(attempt)
  {
    var osa := new Osa(DeviceAddress, DevicePort);
    text := osa.GetRawTrace(ScriptStart, ScriptStop, attempt.link, attempt.replies);
  }

  /** The script as written calls `get_single_trace()` with no wavelengths;
      the method requires two, so the call raises `TypeError` on the first
      iteration, outside every `try`, before any socket is opened. */
  method ScriptAsWritten(attempts: seq<Attempt>) returns (run: Run)
    ensures run.outcome == Crashed(MissingWavelengthArguments)
    ensures run.tally.saves == [] && run.tally.count == 0 && run.traces == []
  {
    var tally := Tally(0, None, [], 0, 0);
    // The loop test `iteration_count < required_iterations` holds at once.
    assert tally.count < RequiredIterations;
    run := Run(Crashed(MissingWavelengthArguments), tally, []);
  }

  /** A trace is accepted when it parses and either no target is set yet or
      it has the target's length. */
  predicate Accepted(t: Tally, response: Option<string>)
  {
    Parsed(response).Some? && (t.target.None? || |Parsed(response).value| == t.target.value)
  }

  /** What the loop body does with one raw trace: skip it (no response or no
      "ready"), raise (a sample `float()` rejects), discard it (wrong length)
      or keep and save it. */
  function Step(t: Tally, response: Option<string>): (r: Result<Tally, ScriptError>)
    ensures r.Err? <==> ParseResponse(response).Err? && ParseResponse(response).error.NotAFloat?
    ensures r.Err? ==> r.error == BadSample(ParseResponse(response).error.token)
    ensures r.Ok? ==> (r.value.count == t.count + 1 <==> Accepted(t, response))
    ensures r.Ok? && !Accepted(t, response) ==>
              r.value.count == t.count && r.value.target == t.target && r.value.saves == t.saves
    ensures r.Ok? && Accepted(t, response) ==>
              r.value.target == Some(|Parsed(response).value|) &&
              r.value.saves == t.saves + [Save(ScriptAxis(|Parsed(response).value|), Parsed(response).value, r.value.count)]
    ensures r.Ok? && t.target.Some? ==> r.value.target == t.target
    ensures r.Ok? ==> r.value.sleeps + r.value.discards == t.sleeps + t.discards + 1
    ensures r.Ok? ==> (r.value.sleeps == t.sleeps <==> Parsed(response).Some? && !Accepted(t, response))
  {
    var samples := Parsed(response);
    if samples.None? then
      var error := ParseResponse(response).error;
      if error.NotAFloat? then Err(BadSample(error.token))
      else Ok(t.(sleeps := t.sleeps + 1))
    else if t.target.Some? && |samples.value| != t.target.value then
      Ok(t.(discards := t.discards + 1))
    else
      var count := t.count + 1;
      Ok(Tally(count, Some(|samples.value|), t.saves + [Save(ScriptAxis(|samples.value|), samples.value, count)],
               t.sleeps + 1, t.discards))
  }

  /** What the script's variables say about the responses `rs` seen so far. */
  predicate Accounts(rs: seq<Option<string>>, t: Tally)
  {
    && |t.saves| == t.count
    && t.target == FirstParsed(rs)
    && (t.target.None? ==> t.saves == [])
    && (t.target.Some? ==> SavedSamples(t.saves) == Consistent(rs, t.target.value))
    && (forall k :: 0 <= k < |t.saves| ==> t.saves[k].index == k + 1 && t.saves[k].axis == ScriptAxis(|t.saves[k].samples|))
  }

  /** Every file the script saves holds the samples of a trace it received,
      all of them as many as the first trace that parsed. */
  lemma {:induction false} SavesAreConsistent(rs: seq<Option<string>>, t: Tally)
    requires Accounts(rs, t)
    ensures t.count > 0 ==> t.target.Some?
    ensures forall k :: 0 <= k < |t.saves| ==> |t.saves[k].samples| == t.target.value
    ensures forall k :: 0 <= k < |t.saves| ==>
              exists j :: 0 <= j < |rs| && Parsed(rs[j]) == Some(t.saves[k].samples)
  {
    forall k | 0 <= k < |t.saves|
      ensures |t.saves[k].samples| == t.target.value
      ensures exists j :: 0 <= j < |rs| && Parsed(rs[j]) == Some(t.saves[k].samples)
    {
      assert SavedSamples(t.saves)[k] == t.saves[k].samples;
      ConsistentFrom(rs, t.target.value, k);
    }
  }

  /** Every iteration that does not raise keeps the account of the
      responses, with the new one added. */
  lemma {:induction false} StepAccounts(rs: seq<Option<string>>, t: Tally, response: Option<string>)
    requires Accounts(rs, t)
    requires Step(t, response).Ok?
    ensures Accounts(rs + [response], Step(t, response).value)
  {
    var next := Step(t, response).value;
    var samples := Parsed(response);
    if samples.Some? && (t.target.None? || |samples.value| == t.target.value) {
      KeptAccounts(rs, t, response);
    } else {
      PassedAccounts(rs, t, response);
      assert next.count == t.count && next.target == t.target && next.saves == t.saves;
    }
  }

  /** A response that does not parse, or parses to the wrong length, leaves
      the account as it was. */
  lemma {:induction false} PassedAccounts(rs: seq<Option<string>>, t: Tally, response: Option<string>)
    requires Accounts(rs, t)
    requires Parsed(response).None? || (t.target.Some? && |Parsed(response).value| != t.target.value)
    ensures Accounts(rs + [response], t)
  {
    FirstParsedSnoc(rs, response);
    if t.target.Some? {
      ConsistentSnoc(rs, response, t.target.value);
    }
  }

  /** A response of the target length, or the first that parses, is saved
      under the next iteration number. */
  lemma {:induction false} KeptAccounts(rs: seq<Option<string>>, t: Tally, response: Option<string>)
    requires Accounts(rs, t)
    requires Accepted(t, response)
    ensures Step(t, response).Ok?
    ensures Accounts(rs + [response], Step(t, response).value)
  {
    var samples := Parsed(response).value;
    var save := Save(ScriptAxis(|samples|), samples, t.count + 1);
    var next := Step(t, response).value;
    assert next.count == t.count + 1 && next.target == Some(|samples|) && next.saves == t.saves + [save];
    FirstParsedSnoc(rs, response);
    KeptSamples(rs, t, response);
    assert forall k :: 0 <= k < |t.saves| ==> next.saves[k] == t.saves[k];
  }

  /** The files after an accepted trace hold the consistent traces so far. */
  lemma {:induction false} KeptSamples(rs: seq<Option<string>>, t: Tally, response: Option<string>)
    requires Accounts(rs, t)
    requires Accepted(t, response)
    ensures SavedSamples(t.saves + [Save(ScriptAxis(|Parsed(response).value|), Parsed(response).value, t.count + 1)])
            == Consistent(rs + [response], |Parsed(response).value|)
  {
    var samples := Parsed(response).value;
    var n := |samples|;
    if t.target.None? {
      NothingBeforeTarget(rs, n);
    }
    ConsistentSnoc(rs, response, n);
    SavedSamplesSnoc(t.saves, Save(ScriptAxis(n), samples, t.count + 1));
  }

  /** The acquisition loop with the wavelengths passed to `get_single_trace`.
      An empty or missing trace and one without "ready" are skipped after the
      sleep; the first trace that parses sets the target length; a trace of
      another length is discarded with no sleep; a sample `float()` rejects
      raises out of the loop. */
  method Acquire(required: nat, attempts: seq<Attempt>) returns (run: Run)
    ensures |run.traces| <= |attempts|
    ensures run.traces == Responses(attempts[..|run.traces|])
    ensures run.outcome == Completed <==> run.tally.count == required
    ensures run.outcome == Exhausted ==> |run.traces| == |attempts| && run.tally.count < required
    ensures run.outcome.Crashed? ==>
              |run.traces| > 0 && run.outcome.error.BadSample? &&
              ParseResponse(run.traces[|run.traces| - 1]) == Err(NotAFloat(run.outcome.error.token))
    ensures run.tally.count <= required
    ensures Accounts(run.traces, run.tally)
    ensures run.tally.sleeps + run.tally.discards + (if run.outcome.Crashed? then 1 else 0) == |run.traces|
  {
    var tally := Tally(0, None, [], 0, 0);
    var traces: seq<Option<string>> := [];
    assert attempts[..0] == [];
    while tally.count < required
      invariant |traces| <= |attempts| && tally.count <= required
      invariant traces == Responses(attempts[..|traces|])
      invariant Accounts(traces, tally)
      invariant tally.sleeps + tally.discards == |traces|
      decreases required - tally.count, |attempts| - |traces|
    {
      if |traces| == |attempts| {
        run := Run(Exhausted, tally, traces);
        return;
      }
      var text := Fetch(attempts[|traces|]);
      ResponsesNext(attempts, |traces|);
      var step := Step(tally, text);
      if step.Err? {
        PassedAccounts(traces, tally, text);
        run := Run(Crashed(step.error), tally, traces + [text]);
        return;
      }
      StepAccounts(traces, tally, text);
      traces := traces + [text];
      tally := step.value;
    }
    run := Run(Completed, tally, traces);
  }
}
