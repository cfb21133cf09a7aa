/** Shared vocabulary of the analyze/ask protocol of the vision chatbot:
    backend outcomes, the calls made to the backends, the steps a generator
    handler takes, and the rule by which the user interface consumes the
    values such a handler yields. */
module Protocol {

  datatype Option<+T> = None | Some(value: T)

  /** What a backend (image write, detector, captioner, question answerer)
      gives back: a value, or an exception whose `str()` is `msg`. */
  datatype Outcome<+T> = Ok(value: T) | Fail(msg: string)

  /** One call into code outside the handlers. */
  datatype Call =
    | WriteUpload(path: string)              // os.makedirs + image write
    | Detect(path: string)                   // detector.detect
    | Caption(path: string)                  // captioner.caption
    | Answer(path: string, question: string) // vqa.answer

  /** One observable step of a generator handler: it yields a value to the
      interface, or it calls a backend. A handler's run is the sequence of
      its steps, in the order they happen. */
  datatype Step<+E> = Yield(event: E) | Invoke(call: Call)

  /** Text both handlers put in front of an exception's message. */
  const ErrorPrefix := "\U{26A0} Error: "

  /** Two texts whose first characters differ are different, whatever
      follows the first. */
  lemma PrefixedDiffers(prefix: string, rest: string, other: string)
    requires prefix != [] && other != [] && prefix[0] != other[0]
    ensures prefix + rest != other
  {
    assert (prefix + rest)[0] == prefix[0];
  }

  /** The values a run yields, in order. */
  function Yields<E>(trace: seq<Step<E>>): (r: seq<E>)
    ensures |r| <= |trace|
  {
    if trace == [] then []
    else (if trace[0].Yield? then [trace[0].event] else []) + Yields(trace[1..])
  }

  /** The backend calls a run makes, in order. */
  function Calls<E>(trace: seq<Step<E>>): (r: seq<Call>)
    ensures |r| <= |trace|
  {
    if trace == [] then []
    else (if trace[0].Invoke? then [trace[0].call] else []) + Calls(trace[1..])
  }

  lemma StepAlone<E>(x: Step<E>)
    ensures Yields([x]) == if x.Yield? then [x.event] else []
    ensures Calls([x]) == if x.Invoke? then [x.call] else []
  {
    assert [x][1..] == [];
  }

  lemma CallFirst<E>(call: Call, rest: seq<Step<E>>)
    ensures Yields([Invoke(call)] + rest) == Yields(rest)
    ensures Calls([Invoke(call)] + rest) == [call] + Calls(rest)
  {
    var t := [Invoke(call)] + rest;
    assert t[0] == Invoke(call) && t[1..] == rest;
  }

  lemma YieldFirst<E>(e: E, rest: seq<Step<E>>)
    ensures Yields([Yield(e)] + rest) == [e] + Yields(rest)
    ensures Calls([Yield(e)] + rest) == Calls(rest)
  {
    var t := [Yield(e)] + rest;
    assert t[0] == Yield(e) && t[1..] == rest;
  }

  lemma YieldThenCall<E>(e: E, call: Call, rest: seq<Step<E>>)
    ensures Yields([Yield(e), Invoke(call)] + rest) == [e] + Yields(rest)
    ensures Calls([Yield(e), Invoke(call)] + rest) == [call] + Calls(rest)
  {
    CallFirst(call, rest);
    YieldFirst(e, [Invoke(call)] + rest);
    assert [Yield(e), Invoke(call)] + rest == [Yield(e)] + ([Invoke(call)] + rest);
  }

  /** The shape of a run that yields three statuses, makes one call and
      yields one final value. */
  lemma StatusesCallFinal<E>(s0: E, s1: E, s2: E, call: Call, last: E)
    ensures Yields([Yield(s0), Yield(s1), Yield(s2), Invoke(call), Yield(last)]) == [s0, s1, s2, last]
    ensures Calls([Yield(s0), Yield(s1), Yield(s2), Invoke(call), Yield(last)]) == [call]
  {
    var f: seq<Step<E>> := [Yield(last)];
    var t2 := [Yield(s2), Invoke(call)] + f;
    var t1 := [Yield(s1)] + t2;
    var t0 := [Yield(s0)] + t1;
    assert Yields(f) == [last] && Calls(f) == [] by {
      StepAlone(Yield(last));
    }
    assert Yields(t2) == [s2, last] && Calls(t2) == [call] by {
      YieldThenCall(s2, call, f);
    }
    assert Yields(t1) == [s1, s2, last] && Calls(t1) == [call] by {
      YieldFirst(s1, t2);
    }
    assert Yields(t0) == [s0, s1, s2, last] && Calls(t0) == [call] by {
      YieldFirst(s0, t1);
    }
    assert t0 == [Yield(s0), Yield(s1), Yield(s2), Invoke(call), Yield(last)];
  }

  /** How the interface consumes a generator handler: every yielded value
      replaces what the bound output components held, one after the other;
      a handler that yields nothing leaves them as they were. */
  function Overwrite<T>(current: T, yielded: seq<T>): (r: T)
    ensures r == current || r in yielded
    ensures r != current ==> yielded != []
  {
    if yielded == [] then current else Overwrite(yielded[0], yielded[1..])
  }

  /** After a handler has run, the outputs hold its last yielded value, or
      their previous value when it yielded nothing. */
  lemma {:induction false} OverwriteKeepsLast<T>(current: T, yielded: seq<T>)
    ensures Overwrite(current, yielded)
            == if yielded == [] then current else yielded[|yielded| - 1]
  {
    if yielded != [] {
      OverwriteKeepsLast(yielded[0], yielded[1..]);
    }
  }
}
