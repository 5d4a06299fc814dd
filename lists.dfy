/** Two list-building shapes the scripts use again and again: a filtered
    comprehension over lines, and the concatenation of what each element of a
    list contributes. */
module Lists {

  /** `[clean(x) for x in lines if keep(clean(x))]`: every line is
      `clean`ed, and the cleaned lines that `keep` accepts are collected in
      order. */
  function Collect(lines: seq<string>, clean: string -> string, keep: string -> bool): seq<string>
    decreases |lines|
  {
    if lines == [] then []
    else
      var n := |lines| - 1;
      var line := clean(lines[n]);
      Collect(lines[..n], clean, keep) + (if keep(line) then [line] else [])
  }

  /** Collecting works line by line: what two blocks of lines yield is what
      the first yields followed by what the second yields. */
  lemma {:induction false} CollectAppend(a: seq<string>, b: seq<string>, clean: string -> string,
                                         keep: string -> bool)
    ensures Collect(a + b, clean, keep) == Collect(a, clean, keep) + Collect(b, clean, keep)
    decreases |b|
  {
    if b == [] {
      assert a + b == a;
    } else {
      var n := |b| - 1;
      assert (a + b)[..|a + b| - 1] == a + b[..n];
      assert (a + b)[|a + b| - 1] == b[n];
      CollectAppend(a, b[..n], clean, keep);
    }
  }

  /** Everything collected is an accepted, cleaned line of the input. */
  lemma {:induction false} CollectSound(lines: seq<string>, clean: string -> string, keep: string -> bool)
    ensures forall u | u in Collect(lines, clean, keep) ::
      keep(u) && exists i | 0 <= i < |lines| :: u == clean(lines[i])
    decreases |lines|
  {
    if lines != [] {
      var n := |lines| - 1;
      CollectSound(lines[..n], clean, keep);
      forall u | u in Collect(lines[..n], clean, keep)
        ensures exists i | 0 <= i < |lines| :: u == clean(lines[i])
      {
        var i :| 0 <= i < n && u == clean(lines[..n][i]);
        assert lines[..n][i] == lines[i];
      }
    }
  }

  /** Every line whose cleaned form is accepted is collected. */
  lemma {:induction false} CollectComplete(lines: seq<string>, clean: string -> string, keep: string -> bool,
                                           i: nat)
    requires i < |lines| && keep(clean(lines[i]))
    ensures clean(lines[i]) in Collect(lines, clean, keep)
    decreases |lines|
  {
    var n := |lines| - 1;
    if i < n {
      assert lines[..n][i] == lines[i];
      CollectComplete(lines[..n], clean, keep, i);
    }
  }

  /** Every collected line is accepted, and has every property that all
      cleaned lines have. */
  lemma {:induction false} CollectAll(lines: seq<string>, clean: string -> string, keep: string -> bool,
                                      good: string -> bool)
    requires forall i | 0 <= i < |lines| :: good(clean(lines[i]))
    ensures forall k | 0 <= k < |Collect(lines, clean, keep)| ::
      keep(Collect(lines, clean, keep)[k]) && good(Collect(lines, clean, keep)[k])
    decreases |lines|
  {
    if lines != [] {
      var n := |lines| - 1;
      assert forall i | 0 <= i < n :: lines[..n][i] == lines[i];
      CollectAll(lines[..n], clean, keep, good);
      var front := Collect(lines[..n], clean, keep);
      var r := Collect(lines, clean, keep);
      forall k | 0 <= k < |r|
        ensures keep(r[k]) && good(r[k])
      {
        if k < |front| {
          assert r[k] == front[k];
        } else {
          var line := clean(lines[n]);
          assert r == front + (if keep(line) then [line] else []);
          assert keep(line) && r[k] == line;
          assert good(clean(lines[n]));
        }
      }
    }
  }

  /** Nothing is collected exactly when no cleaned line is accepted. */
  lemma {:induction false} CollectEmpty(lines: seq<string>, clean: string -> string, keep: string -> bool)
    ensures Collect(lines, clean, keep) == [] <==> forall k | 0 <= k < |lines| :: !keep(clean(lines[k]))
    decreases |lines|
  {
    if lines != [] {
      var n := |lines| - 1;
      CollectEmpty(lines[..n], clean, keep);
      assert forall k | 0 <= k < n :: lines[..n][k] == lines[k];
    }
  }

  /** The parts of `xs`, one after the other. */
  function Flatten<S, T>(xs: seq<S>, part: S -> seq<T>): seq<T>
    decreases |xs|
  {
    if xs == [] then []
    else
      var n := |xs| - 1;
      Flatten(xs[..n], part) + part(xs[n])
  }

  /** One more element adds its part. */
  lemma FlattenNext<S, T>(xs: seq<S>, part: S -> seq<T>, j: nat)
    requires j < |xs|
    ensures Flatten(xs[..j + 1], part) == Flatten(xs[..j], part) + part(xs[j])
  {
    assert xs[..j + 1][..j] == xs[..j];
  }

  /** Flattening works block by block. */
  lemma {:induction false} FlattenAppend<S, T>(a: seq<S>, b: seq<S>, part: S -> seq<T>)
    ensures Flatten(a + b, part) == Flatten(a, part) + Flatten(b, part)
    decreases |b|
  {
    if b == [] {
      assert a + b == a;
    } else {
      var m := |b| - 1;
      assert (a + b)[..|a + b| - 1] == a + b[..m];
      assert (a + b)[|a + b| - 1] == b[m];
      FlattenAppend(a, b[..m], part);
    }
  }

  /** Whatever is flattened comes from the part of some element. */
  lemma {:induction false} FlattenFrom<S, T>(xs: seq<S>, part: S -> seq<T>, x: T)
    requires x in Flatten(xs, part)
    ensures exists i | 0 <= i < |xs| :: x in part(xs[i])
    decreases |xs|
  {
    var n := |xs| - 1;
    if x in Flatten(xs[..n], part) {
      FlattenFrom(xs[..n], part, x);
      var i :| 0 <= i < |xs[..n]| && x in part(xs[..n][i]);
      assert xs[..n][i] == xs[i];
    } else {
      assert x in part(xs[n]);
    }
  }

  /** Every element's part is flattened. */
  lemma {:induction false} FlattenHas<S, T>(xs: seq<S>, part: S -> seq<T>, i: nat, x: T)
    requires i < |xs| && x in part(xs[i])
    ensures x in Flatten(xs, part)
    decreases |xs|
  {
    var n := |xs| - 1;
    if i < n {
      assert xs[..n][i] == xs[i];
      FlattenHas(xs[..n], part, i, x);
    }
  }

  /** What is flattened is exactly what the parts hold. */
  lemma FlattenMembers<S, T>(xs: seq<S>, part: S -> seq<T>)
    ensures forall x :: x in Flatten(xs, part) <==> exists i | 0 <= i < |xs| :: x in part(xs[i])
  {
    forall x | x in Flatten(xs, part)
      ensures exists i | 0 <= i < |xs| :: x in part(xs[i])
    {
      FlattenFrom(xs, part, x);
    }
    forall x, i | 0 <= i < |xs| && x in part(xs[i])
      ensures x in Flatten(xs, part)
    {
      FlattenHas(xs, part, i, x);
    }
  }

  /** An element whose part is empty leaves no trace. */
  lemma FlattenSkip<S, T>(a: seq<S>, x: S, b: seq<S>, part: S -> seq<T>)
    requires part(x) == []
    ensures Flatten(a + [x] + b, part) == Flatten(a, part) + Flatten(b, part)
  {
    FlattenAppend(a + [x], b, part);
    FlattenAppend(a, [x], part);
    calc {
      Flatten([x], part);
      { assert [x][..0] == []; }
      Flatten([], part) + part(x);
      [];
    }
  }

  /** The index of the first element that satisfies `p`, or `|xs|` when
      none does. */
  function FirstWhere<T>(xs: seq<T>, p: T -> bool): (k: nat)
    ensures k <= |xs|
    ensures k < |xs| ==> p(xs[k])
    ensures forall j | 0 <= j < k :: !p(xs[j])
    decreases |xs|
  {
    if xs == [] || p(xs[0]) then 0
    else 1 + FirstWhere(xs[1..], p)
  }

  /** The first element that satisfies `p` is found. */
  lemma FirstWhereIs<T>(xs: seq<T>, p: T -> bool, k: nat)
    requires k <= |xs| && (k < |xs| ==> p(xs[k]))
    requires forall j | 0 <= j < k :: !p(xs[j])
    ensures FirstWhere(xs, p) == k
  {
  }

  /** When every non-empty part starts and ends with an element satisfying
      `ok`, so does their concatenation. */
  lemma {:induction false} FlattenEnds<S, T>(xs: seq<S>, part: S -> seq<T>, ok: T -> bool)
    requires forall i | 0 <= i < |xs| :: part(xs[i]) == [] || (ok(part(xs[i])[0]) && ok(part(xs[i])[|part(xs[i])| - 1]))
    ensures Flatten(xs, part) == [] || (ok(Flatten(xs, part)[0]) && ok(Flatten(xs, part)[|Flatten(xs, part)| - 1]))
    decreases |xs|
  {
    if xs != [] {
      var n := |xs| - 1;
      assert forall i | 0 <= i < n :: xs[..n][i] == xs[i];
      FlattenEnds(xs[..n], part, ok);
      var front, last := Flatten(xs[..n], part), part(xs[n]);
      var r := Flatten(xs, part);
      assert r == front + last;
      if front != [] {
        assert r[0] == front[0];
      }
      if last != [] {
        assert r[|r| - 1] == last[|last| - 1];
      }
    }
  }

  /** Every element satisfies `p`, checked from the back: the form a loop
      over a growing prefix builds. */
  predicate AllOf<T>(xs: seq<T>, p: T -> bool)
    decreases |xs|
  {
    xs == [] || (AllOf(xs[..|xs| - 1], p) && p(xs[|xs| - 1]))
  }

  /** `AllOf` holds exactly when each element satisfies `p`. */
  lemma {:induction false} AllOfEvery<T>(xs: seq<T>, p: T -> bool)
    ensures AllOf(xs, p) <==> forall i | 0 <= i < |xs| :: p(xs[i])
    decreases |xs|
  {
    if xs != [] {
      var n := |xs| - 1;
      AllOfEvery(xs[..n], p);
      assert forall i | 0 <= i < n :: xs[..n][i] == xs[i];
    }
  }

  /** Once some element of a prefix fails `p`, the whole sequence does. */
  lemma {:induction false} AllOfStopped<T>(xs: seq<T>, p: T -> bool, k: nat)
    requires k <= |xs| && !AllOf(xs[..k], p)
    ensures !AllOf(xs, p)
    decreases |xs|
  {
    if k < |xs| {
      var n := |xs| - 1;
      assert xs[..n][..k] == xs[..k];
      AllOfStopped(xs[..n], p, k);
    } else {
      assert xs[..k] == xs;
    }
  }

  /** A function equal at each step of a stretch is equal across it. */
  lemma {:induction false} ChainEqual<T>(f: nat -> T, i: nat, k: nat)
    requires i <= k
    requires forall j | i <= j < k :: f(j) == f(j + 1)
    ensures f(i) == f(k)
    decreases k - i
  {
    if i < k {
      ChainEqual(f, i + 1, k);
    }
  }
}
