/** `Series`: a generator that first returns its initial values in order and
    then computes every later term from the most recent terms, oldest first,
    with a caller-supplied function. */
module Collections {
  import opened Wrappers

  /** The recurrence can be applied to every window of exactly `n` terms
      (the source always hands it an array of the seed's length). */
  ghost predicate AcceptsWindows<T(!new)>(f: seq<T> --> T, n: nat)
  {
    forall w: seq<T> | |w| == n :: f.requires(w)
  }

  /** The windows a series can hold: never longer than the seed, and while it
      is not full it holds the seed's first terms. */
  ghost predicate Reachable<T>(seed: seq<T>, window: seq<T>)
  {
    |window| <= |seed| && (|window| < |seed| ==> window == seed[..|window|])
  }

  /** The term `Next` returns when the series holds `window`. */
  function NextTerm<T(!new)>(seed: seq<T>, f: seq<T> --> T, window: seq<T>): T
    requires |window| <= |seed| && AcceptsWindows(f, |seed|)
  {
    if |window| < |seed| then seed[|window|] else f(window)
  }

  /** The window after `Next`: the term is queued, and the oldest term leaves
      once the window was full. */
  function NextWindow<T(!new)>(seed: seq<T>, f: seq<T> --> T, window: seq<T>): (w: seq<T>)
    requires |window| <= |seed| && AcceptsWindows(f, |seed|)
    ensures |w| == if |window| < |seed| then |window| + 1 else |window|
  {
    if |window| < |seed| then window + [seed[|window|]]
    else (window + [f(window)])[1..]
  }

  /** The window after `k` calls of `Next`: it grows by one per call until it
      is as long as the seed, and keeps that length afterwards. */
  function After<T(!new)>(seed: seq<T>, f: seq<T> --> T, window: seq<T>, k: nat): (w: seq<T>)
    requires |window| <= |seed| && AcceptsWindows(f, |seed|)
    ensures |w| == if |window| + k <= |seed| then |window| + k else |seed|
  {
    if k == 0 then window else NextWindow(seed, f, After(seed, f, window, k - 1))
  }

  /** The terms `k` calls of `Next` return, in order, starting from `window`. */
  function Terms<T(!new)>(seed: seq<T>, f: seq<T> --> T, window: seq<T>, k: nat): (ts: seq<T>)
    requires |window| <= |seed| && AcceptsWindows(f, |seed|)
    ensures |ts| == k
  {
    if k == 0 then []
    else Terms(seed, f, window, k - 1) + [NextTerm(seed, f, After(seed, f, window, k - 1))]
  }

  /** A series is a stateful object: the seed and the function are fixed at
      construction, and `pending`, the queue of the most recent terms, is
      changed in place by `Next` and `Reset`. */
  class Series<T(!new)> {
    /** The initial values, returned first and in order. */
    const seed: seq<T>
    /** Computes each later term from the last `|seed|` terms, oldest first. */
    const f: seq<T> --> T
    /** The queue of the most recent terms, oldest first. */
    var pending: seq<T>

    ghost predicate Valid()
      reads this
    {
      Reachable(seed, pending) && AcceptsWindows(f, |seed|)
    }

    /** A new series starts before its first term and keeps the seed and the
        function it is given. */
    constructor (initialValues: seq<T>, func: seq<T> --> T)
      requires AcceptsWindows(func, |initialValues|)
      ensures Valid()
      ensures seed == initialValues && f == func && pending == []
    {
      seed := initialValues;
      f := func;
      pending := [];
    }

    /** A copy has the source's seed and function; it starts at the source's
        position when `preservePosition` holds and from the beginning otherwise. */
    constructor Copy(source: Series<T>, preservePosition: bool)
      requires source.Valid()
      ensures Valid()
      ensures seed == source.seed && f == source.f
      ensures pending == if preservePosition then source.pending else []
    {
      seed := source.seed;
      f := source.f;
      pending := source.pending;
      new;
      if !preservePosition {
        Reset();
      }
    }

    /** The constructor behind a possibly null argument: the seed is checked
        before the function. */
    static method New(initialValues: Option<seq<T>>, func: Option<seq<T> --> T>)
      returns (r: Result<Series<T>>)
      requires initialValues.Some? && func.Some? ==> AcceptsWindows(func.value, |initialValues.value|)
      ensures initialValues.None? ==> r == Err(ArgumentNull("initialValues"))
      ensures initialValues.Some? && func.None? ==> r == Err(ArgumentNull("func"))
      ensures initialValues.Some? && func.Some? ==>
                r.Ok? && fresh(r.value) && r.value.Valid() && r.value.pending == [] &&
                r.value.seed == initialValues.value && r.value.f == func.value
    {
      if initialValues.None? {
        return Err(ArgumentNull("initialValues"));
      }
      if func.None? {
        return Err(ArgumentNull("func"));
      }
      var s := new Series(initialValues.value, func.value);
      return Ok(s);
    }

    /** The copy constructor behind a possibly null source. */
    static method CopyOf(source: Series?<T>, preservePosition: bool) returns (r: Result<Series<T>>)
      requires source != null ==> source.Valid()
      ensures source == null ==> r == Err(ArgumentNull("source"))
      ensures source != null ==>
                r.Ok? && fresh(r.value) && r.value.Valid() &&
                r.value.seed == source.seed && r.value.f == source.f &&
                r.value.pending == if preservePosition then source.pending else []
    {
      if source == null {
        return Err(ArgumentNull("source"));
      }
      var s := new Series.Copy(source, preservePosition);
      return Ok(s);
    }

    /** A series of one initial term whose later terms are `func` of the
        previous one. */
    static method Of1(a: T, func: Option<T -> T>) returns (r: Result<Series<T>>)
      ensures func.None? ==> r == Err(ArgumentNull("func"))
      ensures func.Some? ==>
                r.Ok? && fresh(r.value) && r.value.Valid() && r.value.pending == [] &&
                r.value.seed == [a] &&
                forall w: seq<T> | |w| == 1 :: r.value.f(w) == func.value(w[0])
    {
      if func.None? {
        return Err(ArgumentNull("func"));
      }
      var g := func.value;
      var s := new Series([a], (w: seq<T>) requires |w| == 1 => g(w[0]));
      return Ok(s);
    }

    /** A series of two initial terms whose later terms are `func` of the
        previous two. */
    static method Of2(a: T, b: T, func: Option<(T, T) -> T>) returns (r: Result<Series<T>>)
      ensures func.None? ==> r == Err(ArgumentNull("func"))
      ensures func.Some? ==>
                r.Ok? && fresh(r.value) && r.value.Valid() && r.value.pending == [] &&
                r.value.seed == [a, b] &&
                forall w: seq<T> | |w| == 2 :: r.value.f(w) == func.value(w[0], w[1])
    {
      if func.None? {
        return Err(ArgumentNull("func"));
      }
      var g := func.value;
      var s := new Series([a, b], (w: seq<T>) requires |w| == 2 => g(w[0], w[1]));
      return Ok(s);
    }

    /** A series of three initial terms whose later terms are `func` of the
        previous three. */
    static method Of3(a: T, b: T, c: T, func: Option<(T, T, T) -> T>) returns (r: Result<Series<T>>)
      ensures func.None? ==> r == Err(ArgumentNull("func"))
      ensures func.Some? ==>
                r.Ok? && fresh(r.value) && r.value.Valid() && r.value.pending == [] &&
                r.value.seed == [a, b, c] &&
                forall w: seq<T> | |w| == 3 :: r.value.f(w) == func.value(w[0], w[1], w[2])
    {
      if func.None? {
        return Err(ArgumentNull("func"));
      }
      var g := func.value;
      var s := new Series([a, b, c], (w: seq<T>) requires |w| == 3 => g(w[0], w[1], w[2]));
      return Ok(s);
    }

    /** A series of four initial terms whose later terms are `func` of the
        previous four. */
    static method Of4(a: T, b: T, c: T, d: T, func: Option<(T, T, T, T) -> T>)
      returns (r: Result<Series<T>>)
      ensures func.None? ==> r == Err(ArgumentNull("func"))
      ensures func.Some? ==>
                r.Ok? && fresh(r.value) && r.value.Valid() && r.value.pending == [] &&
                r.value.seed == [a, b, c, d] &&
                forall w: seq<T> | |w| == 4 :: r.value.f(w) == func.value(w[0], w[1], w[2], w[3])
    {
      if func.None? {
        return Err(ArgumentNull("func"));
      }
      var g := func.value;
      var s := new Series([a, b, c, d],
                          (w: seq<T>) requires |w| == 4 => g(w[0], w[1], w[2], w[3]));
      return Ok(s);
    }

    /** A series of five initial terms whose later terms are `func` of the
        previous five. */
    static method Of5(a: T, b: T, c: T, d: T, e: T, func: Option<(T, T, T, T, T) -> T>)
      returns (r: Result<Series<T>>)
      ensures func.None? ==> r == Err(ArgumentNull("func"))
      ensures func.Some? ==>
                r.Ok? && fresh(r.value) && r.value.Valid() && r.value.pending == [] &&
                r.value.seed == [a, b, c, d, e] &&
                forall w: seq<T> | |w| == 5 :: r.value.f(w) == func.value(w[0], w[1], w[2], w[3], w[4])
    {
      if func.None? {
        return Err(ArgumentNull("func"));
      }
      var g := func.value;
      var s := new Series([a, b, c, d, e],
                          (w: seq<T>) requires |w| == 5 => g(w[0], w[1], w[2], w[3], w[4]));
      return Ok(s);
    }

    /** Returns the next term. While the queue is shorter than the seed, that
        is the seed's term at the queue's length and the queue grows by it;
        once the queue is full, it is `f` of the queue, which then drops its
        oldest term. */
    method Next() returns (term: T)
      requires Valid()
      modifies this`pending
      ensures Valid()
      ensures old(|pending|) < |seed| ==> term == seed[old(|pending|)] && pending == old(pending) + [term]
      ensures old(|pending|) == |seed| ==> term == f(old(pending)) && pending == (old(pending) + [term])[1..]
    {
      var useFunction := |pending| == |seed|;
      if useFunction {
        term := f(pending);
      } else {
        term := seed[|pending|];
      }
      pending := pending + [term];
      if useFunction {
        pending := pending[1..];
      }
    }

    /** Empties the queue, so that the series starts again from its seed. */
    method Reset()
      requires Valid()
      modifies this`pending
      ensures Valid()
      ensures pending == []
    {
      while |pending| > 0
        decreases |pending|
      {
        pending := pending[1..];
      }
    }

    /** Calls `Next` `k` times and collects the terms, as a caller enumerating
        the series does. */
    method Take(k: nat) returns (terms: seq<T>)
      requires Valid()
      modifies this`pending
      ensures Valid()
      ensures terms == Terms(seed, f, old(pending), k)
      ensures pending == After(seed, f, old(pending), k)
    {
      ghost var start := pending;
      terms := [];
      for i := 0 to k
        invariant Valid()
        invariant terms == Terms(seed, f, start, i)
        invariant pending == After(seed, f, start, i)
      {
        var term := Next();
        terms := terms + [term];
      }
    }
  }

  /** Fewer calls give a prefix of the terms of more calls. */
  lemma {:induction false} TermsPrefix<T(!new)>(seed: seq<T>, f: seq<T> --> T, window: seq<T>, k: nat, m: nat)
    requires |window| <= |seed| && AcceptsWindows(f, |seed|) && m <= k
    ensures Terms(seed, f, window, m) == Terms(seed, f, window, k)[..m]
    decreases k
  {
    if m < k {
      TermsPrefix(seed, f, window, k - 1, m);
    }
  }

  /** The window always holds the most recent terms: the last ones of the
      starting window followed by the terms returned since. */
  lemma {:induction false} WindowIsRecent<T(!new)>(seed: seq<T>, f: seq<T> --> T, window: seq<T>, k: nat)
    requires |window| <= |seed| && AcceptsWindows(f, |seed|)
    ensures var all, w := window + Terms(seed, f, window, k), After(seed, f, window, k);
            w == all[|all| - |w|..]
  {
    if k > 0 {
      WindowIsRecent(seed, f, window, k - 1);
      var prev := After(seed, f, window, k - 1);
      var term := NextTerm(seed, f, prev);
      var before := window + Terms(seed, f, window, k - 1);
      assert window + Terms(seed, f, window, k) == before + [term];
      if |prev| < |seed| {
        assert After(seed, f, window, k) == prev + [term];
      } else {
        assert After(seed, f, window, k) == (prev + [term])[1..];
      }
    }
  }

  /** The documented behaviour of a fresh series: term `i` is the seed's term
      `i` while there is one, and otherwise the function applied to the
      previous `|seed|` terms, oldest first. */
  lemma Recurrence<T(!new)>(seed: seq<T>, f: seq<T> --> T, k: nat, i: nat)
    requires AcceptsWindows(f, |seed|) && i < k
    ensures var ts := Terms(seed, f, [], k);
            ts[i] == if i < |seed| then seed[i] else f(ts[i - |seed|..i])
  {
    var ts := Terms(seed, f, [], k);
    TermsPrefix(seed, f, [], k, i + 1);
    TermsPrefix(seed, f, [], k, i);
    WindowIsRecent(seed, f, [], i);
    var w := After(seed, f, [], i);
    assert ts[i] == Terms(seed, f, [], i + 1)[i] == NextTerm(seed, f, w);
    if i >= |seed| {
      assert [] + Terms(seed, f, [], i) == ts[..i];
      assert w == ts[i - |seed|..i];
    }
  }

  /** The state reached by `Next` is always a reachable one. */
  lemma {:induction false} AfterReachable<T(!new)>(seed: seq<T>, f: seq<T> --> T, window: seq<T>, k: nat)
    requires Reachable(seed, window) && AcceptsWindows(f, |seed|)
    ensures Reachable(seed, After(seed, f, window, k))
  {
    if k > 0 {
      AfterReachable(seed, f, window, k - 1);
      var prev := After(seed, f, window, k - 1);
      if |prev| + 1 < |seed| {
        assert prev + [seed[|prev|]] == seed[..|prev| + 1];
      }
    }
  }

  /** The Triangle example: starting from `a` and adding one each time gives
      `a, a + 1, a + 2, ...`. */
  lemma {:induction false} CountingUp(a: int, f: seq<int> --> int, k: nat, i: nat)
    requires forall w: seq<int> | |w| == 1 :: f.requires(w) && f(w) == w[0] + 1
    requires i < k
    ensures Terms([a], f, [], k)[i] == a + i
    decreases i
  {
    Recurrence([a], f, k, i);
    if i > 0 {
      CountingUp(a, f, k, i - 1);
    }
  }

  function Fib(n: nat): nat
  {
    if n < 2 then n else Fib(n - 2) + Fib(n - 1)
  }

  /** The Fibonacci example: seeds 0 and 1 with the sum of the previous two
      give the Fibonacci numbers. */
  lemma {:induction false} FibonacciTerms(f: seq<int> --> int, k: nat, i: nat)
    requires forall w: seq<int> | |w| == 2 :: f.requires(w) && f(w) == w[0] + w[1]
    requires i < k
    ensures Terms([0, 1], f, [], k)[i] == Fib(i)
    decreases i
  {
    Recurrence([0, 1], f, k, i);
    if i >= 2 {
      FibonacciTerms(f, k, i - 2);
      FibonacciTerms(f, k, i - 1);
    }
  }

  /** The first nine terms of the series starting at 1 and adding one. */
  method Triangle() returns (actual: seq<int>)
    ensures actual == [1, 2, 3, 4, 5, 6, 7, 8, 9]
  {
    var r := Series<int>.Of1(1, Some((a: int) => a + 1));
    var triangle := r.value;
    actual := triangle.Take(9);
    forall i | 0 <= i < 9
      ensures actual[i] == i + 1
    {
      CountingUp(1, triangle.f, 9, i);
    }
  }

  /** The first nine terms of the series starting at 0, 1 and adding the
      previous two. */
  method Fibonacci() returns (actual: seq<int>)
    ensures actual == [0, 1, 1, 2, 3, 5, 8, 13, 21]
  {
    var r := Series<int>.Of2(0, 1, Some((a: int, b: int) => a + b));
    var fibonacci := r.value;
    actual := fibonacci.Take(9);
    forall i | 0 <= i < 9
      ensures actual[i] == Fib(i)
    {
      FibonacciTerms(fibonacci.f, 9, i);
    }
    assert Fib(8) == 21;
  }

  /** After `Reset`, a series returns the same terms as a new series built
      from the same seed and function. */
  method ResetRestarts<T(!new)>(series: Series<T>, k: nat) returns (again: seq<T>, fromNew: seq<T>)
    requires series.Valid()
    modifies series
    ensures again == fromNew == Terms(series.seed, series.f, [], k)
  {
    var other := new Series(series.seed, series.f);
    fromNew := other.Take(k);
    series.Reset();
    again := series.Take(k);
  }

  /** A copy that keeps the position continues exactly as its source would.
      Advancing the copy leaves the source's queue where it was, and advancing
      the source afterwards leaves the copy's queue where the copy's own calls
      put it. */
  method CopyContinues<T(!new)>(source: Series<T>, k: nat)
    returns (fromCopy: seq<T>, fromSource: seq<T>, sourceQueue: seq<T>, copyQueue: seq<T>)
    requires source.Valid()
    modifies source
    ensures fromCopy == fromSource == Terms(source.seed, source.f, old(source.pending), k)
    ensures sourceQueue == old(source.pending)
    ensures copyQueue == After(source.seed, source.f, old(source.pending), k)
  {
    var copy := new Series.Copy(source, true);
    fromCopy := copy.Take(k);
    sourceQueue := source.pending;
    fromSource := source.Take(k);
    copyQueue := copy.pending;
  }

}
