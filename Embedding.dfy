/** The retry loop of `embed_texts` and `embed_query` (rag_chain.py:33-55).
    The remote embedding call is an oracle: `call(t, a)` is the outcome of
    attempt `a` to embed text `t`, `None` standing for a raised exception.
    Each call and each `time.sleep` is recorded in a log of events, so the
    retry schedule can be stated. */
module Embedding {
  import opened Wrappers

  type Vector = seq<real>

  /** The default `max_retries` of `embed_texts` and `embed_query`. */
  const DefaultRetries: int := 5

  /** The remote call: `call(t, a)` answers attempt `a` for the text `t`. */
  type Oracle = (string, nat) -> Option<Vector>

  datatype Event = Call(text: string, attempt: nat) | Sleep(seconds: real)

  /** What one pass of the inner loop produced for one text: a vector (the
      call succeeded and the loop broke), an exhausted budget (the last
      attempt raised), or nothing at all (`range(max_retries)` was empty). */
  datatype TextOutcome = Embedded(vector: Vector) | Exhausted | NotTried

  datatype TextRun = TextRun(outcome: TextOutcome, log: seq<Event>)

  /** The raised exception: "Embedding failed after {max_retries} retries";
      `embed_query` additionally fails when it gets no vector to index. */
  datatype Failure = EmbeddingFailed(retries: int) | NoVector

  datatype Run = Run(result: Result<seq<Vector>, Failure>, log: seq<Event>)

  /** The inner loop for text `t` from attempt `a` on: try, break on success,
      otherwise sleep `1.0 * (a + 1)` unless this was the last attempt, in
      which case raise. */
  function TextRunFrom(call: Oracle, t: string, maxRetries: int, a: nat): TextRun
    decreases maxRetries - a
  {
    if a >= maxRetries then TextRun(NotTried, [])
    else match call(t, a)
      case Some(v) => TextRun(Embedded(v), [Call(t, a)])
      case None =>
        if a < maxRetries - 1 then
          var rest := TextRunFrom(call, t, maxRetries, a + 1);
          TextRun(rest.outcome, [Call(t, a), Sleep((a + 1) as real)] + rest.log)
        else TextRun(Exhausted, [Call(t, a)])
  }

  /** The outer loop over the first `n` texts: vectors are appended in text
      order, and the first exhausted text raises, discarding the vectors
      collected so far. */
  function EmbedRun(call: Oracle, texts: seq<string>, n: nat, maxRetries: int): Run
    requires n <= |texts|
  {
    if n == 0 then Run(Ok([]), [])
    else
      var before := EmbedRun(call, texts, n - 1, maxRetries);
      if before.result.Err? then before
      else
        var t := TextRunFrom(call, texts[n - 1], maxRetries, 0);
        match t.outcome
          case Embedded(v) => Run(Ok(before.result.value + [v]), before.log + t.log)
          case Exhausted => Run(Err(EmbeddingFailed(maxRetries)), before.log + t.log)
          case NotTried => Run(before.result, before.log + t.log)
  }

  /** `embed_texts(texts, api_key, max_retries)`. */
  method EmbedTexts(texts: seq<string>, call: Oracle, maxRetries: int)
    returns (result: Result<seq<Vector>, Failure>, log: seq<Event>)
    ensures Run(result, log) == EmbedRun(call, texts, |texts|, maxRetries)
  {
    var all: seq<Vector> := [];
    log := [];
    for i := 0 to |texts|
      invariant EmbedRun(call, texts, i, maxRetries) == Run(Ok(all), log)
    {
      var outcome, events := EmbedText(call, texts[i], maxRetries);
      log := log + events;
      match outcome {
        case Embedded(v) =>
          all := all + [v];
        case Exhausted =>
          result := Err(EmbeddingFailed(maxRetries));
          ErrorPersists(call, texts, i + 1, |texts|, maxRetries);
          return;
        case NotTried =>
      }
    }
    result := Ok(all);
  }

  /** The inner `for attempt in range(max_retries)` loop for text `t`. */
  method EmbedText(call: Oracle, t: string, maxRetries: int) returns (outcome: TextOutcome, log: seq<Event>)
    ensures TextRun(outcome, log) == TextRunFrom(call, t, maxRetries, 0)
  {
    outcome := NotTried;
    log := [];
    var attempt: nat := 0;
    while attempt < maxRetries
      invariant TextRunFrom(call, t, maxRetries, 0).outcome == TextRunFrom(call, t, maxRetries, attempt).outcome
      invariant TextRunFrom(call, t, maxRetries, 0).log == log + TextRunFrom(call, t, maxRetries, attempt).log
      decreases maxRetries - attempt
    {
      ghost var before, here := log, TextRunFrom(call, t, maxRetries, attempt);
      log := log + [Call(t, attempt)];
      var answer := call(t, attempt);
      if answer.Some? {
        outcome := Embedded(answer.value);
        return;
      } else if attempt < maxRetries - 1 {
        ghost var next := TextRunFrom(call, t, maxRetries, attempt + 1);
        assert here.log == [Call(t, attempt), Sleep((attempt + 1) as real)] + next.log;
        log := log + [Sleep((attempt + 1) as real)];
        assert before + here.log == log + next.log;
      } else {
        outcome := Exhausted;
        return;
      }
      attempt := attempt + 1;
    }
  }

  /** Once a text has raised, the later texts are never tried. */
  lemma {:induction false} ErrorPersists(call: Oracle, texts: seq<string>, m: nat, n: nat, maxRetries: int)
    requires m <= n <= |texts| && EmbedRun(call, texts, m, maxRetries).result.Err?
    ensures EmbedRun(call, texts, n, maxRetries) == EmbedRun(call, texts, m, maxRetries)
    decreases n - m
  {
    if m < n {
      ErrorPersists(call, texts, m, n - 1, maxRetries);
    }
  }

  /** `embed_query(query)`: the first vector of `embed_texts([query])`, which
      raises `IndexError` when the list is empty. */
  function EmbedQuery(call: Oracle, query: string, maxRetries: int): (r: Result<Vector, Failure>)
    ensures maxRetries <= 0 ==> r == Err(NoVector)
    ensures r.Ok? ==> TextRunFrom(call, query, maxRetries, 0).outcome == Embedded(r.value)
    ensures r.Err? && maxRetries > 0 ==>
      r == Err(EmbeddingFailed(maxRetries)) && forall a :: 0 <= a < maxRetries ==> call(query, a).None?
  {
    var run := EmbedRun(call, [query], 1, maxRetries);
    assert EmbedRun(call, [query], 0, maxRetries) == Run(Ok([]), []);
    assert maxRetries > 0 ==> (!TextRunFrom(call, query, maxRetries, 0).outcome.NotTried?
      && (TextRunFrom(call, query, maxRetries, 0).outcome.Exhausted? <==>
          forall a :: 0 <= a < maxRetries ==> call(query, a).None?)) by {
      if maxRetries > 0 {
        TextRunOutcome(call, query, maxRetries, 0);
      }
    }
    match run.result
      case Err(e) => Err(e)
      case Ok(vs) => if |vs| == 0 then Err(NoVector) else Ok(vs[0])
  }

  /** The attempts for one text: it is embedded exactly when some attempt
      below the budget succeeds, the vector is that of the first successful
      attempt, and the budget is exhausted exactly when every attempt fails. */
  lemma {:induction false} TextRunOutcome(call: Oracle, t: string, maxRetries: int, a: nat)
    requires a < maxRetries
    ensures var o := TextRunFrom(call, t, maxRetries, a).outcome;
      && !o.NotTried?
      && (o.Exhausted? <==> forall b :: a <= b < maxRetries ==> call(t, b).None?)
      && (o.Embedded? ==> exists f :: (a <= f < maxRetries && call(t, f) == Some(o.vector)
            && forall b :: a <= b < f ==> call(t, b).None?))
    decreases maxRetries - a
  {
    if call(t, a).None? && a < maxRetries - 1 {
      TextRunOutcome(call, t, maxRetries, a + 1);
    }
  }

  /** The schedule of one text: only calls for that text with attempts in the
      budget, and every sleep comes right after a failed call and lasts
      `1.0 * (attempt + 1)` seconds. The log ends with a call: there is no
      sleep after the last attempt. */
  lemma {:induction false} TextRunSchedule(call: Oracle, t: string, maxRetries: int, a: nat)
    requires a < maxRetries
    ensures var log := TextRunFrom(call, t, maxRetries, a).log;
      && |log| > 0 && log[|log| - 1].Call?
      && (forall e :: e in log && e.Call? ==> e.text == t && a <= e.attempt < maxRetries)
      && (forall j :: 0 <= j < |log| && log[j].Sleep? ==>
            j > 0 && log[j - 1].Call? && call(t, log[j - 1].attempt).None?
            && log[j].seconds == (log[j - 1].attempt + 1) as real)
      && log[0] == Call(t, a)
    decreases maxRetries - a
  {
    if call(t, a).None? && a < maxRetries - 1 {
      TextRunSchedule(call, t, maxRetries, a + 1);
      var rest := TextRunFrom(call, t, maxRetries, a + 1).log;
      var log := [Call(t, a), Sleep((a + 1) as real)] + rest;
      forall j | 0 <= j < |log| && log[j].Sleep?
        ensures j > 0 && log[j - 1].Call? && call(t, log[j - 1].attempt).None?
        ensures log[j].seconds == (log[j - 1].attempt + 1) as real
      {
        if j >= 2 {
          assert log[j] == rest[j - 2];
          if j == 2 {
            assert false;
          }
          assert log[j - 1] == rest[j - 3];
        }
      }
      forall e | e in log && e.Call? ensures e.text == t && a <= e.attempt < maxRetries {
        if e != Call(t, a) {
          assert e in rest;
        }
      }
    }
  }

  /** The number of calls made for one text never exceeds `max_retries`. */
  function CallCount(log: seq<Event>): nat {
    if log == [] then 0 else (if log[0].Call? then 1 else 0) + CallCount(log[1..])
  }

  lemma {:induction false} TextRunAttempts(call: Oracle, t: string, maxRetries: int, a: nat)
    ensures a <= maxRetries ==> CallCount(TextRunFrom(call, t, maxRetries, a).log) <= maxRetries - a
    ensures a < maxRetries && TextRunFrom(call, t, maxRetries, a).outcome.Exhausted? ==>
      CallCount(TextRunFrom(call, t, maxRetries, a).log) == maxRetries - a
    decreases maxRetries - a
  {
    if a < maxRetries && call(t, a).None? && a < maxRetries - 1 {
      TextRunAttempts(call, t, maxRetries, a + 1);
      var rest := TextRunFrom(call, t, maxRetries, a + 1).log;
      var log := [Call(t, a), Sleep((a + 1) as real)] + rest;
      assert log[1..][1..] == rest;
    }
  }

  /** Some attempt for text `i` within the budget succeeds. */
  ghost predicate HasSuccess(call: Oracle, t: string, maxRetries: int) {
    exists b :: 0 <= b < maxRetries && call(t, b).Some?
  }

  /** With a positive budget, `embed_texts` succeeds exactly when every text
      has a successful attempt within the budget, and otherwise raises the
      retry failure. */
  lemma {:induction false} EmbedRunOk(call: Oracle, texts: seq<string>, n: nat, maxRetries: int)
    requires maxRetries > 0 && n <= |texts|
    ensures var r := EmbedRun(call, texts, n, maxRetries).result;
      && (r.Ok? <==> forall i :: 0 <= i < n ==> HasSuccess(call, texts[i], maxRetries))
      && (r.Err? ==> r.error == EmbeddingFailed(maxRetries))
  {
    if n > 0 {
      EmbedRunOk(call, texts, n - 1, maxRetries);
      var last := texts[n - 1];
      TextRunOutcome(call, last, maxRetries, 0);
      var o := TextRunFrom(call, last, maxRetries, 0).outcome;
      assert o.Exhausted? <==> !HasSuccess(call, last, maxRetries);
    }
  }

  /** When `embed_texts` succeeds it returns exactly one vector per text, in
      text order, each the answer of that text's first successful attempt. */
  lemma {:induction false} EmbedRunVectors(call: Oracle, texts: seq<string>, n: nat, maxRetries: int)
    requires maxRetries > 0 && n <= |texts| && EmbedRun(call, texts, n, maxRetries).result.Ok?
    ensures var vs := EmbedRun(call, texts, n, maxRetries).result.value;
      && |vs| == n
      && forall i :: 0 <= i < n ==> TextRunFrom(call, texts[i], maxRetries, 0).outcome == Embedded(vs[i])
  {
    if n > 0 {
      var before := EmbedRun(call, texts, n - 1, maxRetries).result;
      assert before.Ok?;
      EmbedRunVectors(call, texts, n - 1, maxRetries);
      TextRunOutcome(call, texts[n - 1], maxRetries, 0);
      var vs := EmbedRun(call, texts, n, maxRetries).result.value;
      assert vs == before.value + [vs[n - 1]];
      forall i | 0 <= i < n ensures TextRunFrom(call, texts[i], maxRetries, 0).outcome == Embedded(vs[i]) {
        if i < n - 1 {
          assert vs[i] == before.value[i];
        }
      }
    }
  }

  /** With no attempts allowed, `embed_texts` makes no call and returns an
      empty list whatever the texts, so `embed_query` fails on indexing. */
  lemma {:induction false} EmbedRunNoBudget(call: Oracle, texts: seq<string>, n: nat, maxRetries: int)
    requires maxRetries <= 0 && n <= |texts|
    ensures EmbedRun(call, texts, n, maxRetries) == Run(Ok([]), [])
  {
    if n > 0 {
      EmbedRunNoBudget(call, texts, n - 1, maxRetries);
    }
  }
}
