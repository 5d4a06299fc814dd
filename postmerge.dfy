/** `dedupe_and_merge` of tools/import_posts_from_api.py: reconciling a batch
    of posts pulled from the remote feed with the posts already stored per
    group.  Existing posts get their `discovered` re-normalised, incoming
    posts are kept only when they name a group and carry a title that the
    group does not have yet (first seen wins), and every group's list ends
    up stably sorted by its `discovered` string. */
module PostMerge {
  import opened Wrappers
  import opened Text
  import opened Timestamp

  /** The value a post dictionary holds at a key the merge reads: the key is
      missing, it holds `None`, or it holds a string. */
  datatype Field = Absent | Null | Str(s: string)

  /** `str(post.get(key, ""))` */
  function Show(f: Field): string {
    match f
    case Absent => ""
    case Null => "None"
    case Str(s) => s
  }

  /** A value Python treats as true: a non-empty string. */
  predicate Truthy(f: Field) {
    f.Str? && f.s != ""
  }

  /** `post.get(key)`: a missing key reads as `None`. */
  function Get(f: Field): Field {
    if f.Absent? then Null else f
  }

  /** A stored post: the keys the merge reads or writes. */
  datatype Post = Post(title: Field, discovered: Field, description: Field,
                       link: Field, magnet: Field, screen: Field)

  /** A post as the remote feed returns it, with the group it belongs to. */
  datatype Incoming = Incoming(group: Field, title: Field, discovered: Field,
                               description: Field, link: Field, magnet: Field, screen: Field)

  /** The date normaliser the merge applies to every `discovered` value. */
  type Normalizer = string -> string

  /** `normalize_date`, with `datetime.fromisoformat` given as `fallback`. */
  function DateNormalizer(fallback: string -> Option<Stamp>): Normalizer {
    s => Normalize(s, fallback)
  }

  ghost predicate Idempotent(norm: Normalizer) {
    forall s :: norm(norm(s)) == norm(s)
  }

  /** `normalize_date` is a normaliser the merge can be run twice with. */
  lemma DateNormalizerIdempotent(fallback: string -> Option<Stamp>)
    ensures Idempotent(DateNormalizer(fallback))
  {
    forall s {
      NormalizeIdempotent(s, fallback);
    }
  }

  /** Group name to that group's posts. */
  type Store = map<string, seq<Post>>

  /** `normalize_date(str(post.get("discovered", "")))` */
  function Stamped(f: Field, norm: Normalizer): Field {
    Str(norm(Show(f)))
  }

  /** An existing post after line 89: only `discovered` is rewritten. */
  function Renormalize(p: Post, norm: Normalizer): Post {
    p.(discovered := Stamped(p.discovered, norm))
  }

  function RenormalizeAll(ps: seq<Post>, norm: Normalizer): (r: seq<Post>)
    ensures |r| == |ps|
    ensures forall i | 0 <= i < |ps| :: r[i] == Renormalize(ps[i], norm)
  {
    seq(|ps|, i requires 0 <= i < |ps| => Renormalize(ps[i], norm))
  }

  /** The dictionary built from an incoming post (lines 96-103). */
  function Convert(q: Incoming, norm: Normalizer): Post {
    Post(if q.title.Absent? then Str("") else q.title,
         Stamped(q.discovered, norm),
         if Truthy(q.description) then q.description else Str(""),
         Get(q.link), Get(q.magnet), Get(q.screen))
  }

  /** The incoming post names a group and has a title (lines 94-95, 104-105). */
  predicate Admissible(q: Incoming) {
    Truthy(q.group) && Truthy(q.title)
  }

  /** Some post of `ps` has title `t`: `t in {p.get("post_title") for p in ps}`. */
  predicate HasTitle(ps: seq<Post>, t: string) {
    exists i | 0 <= i < |ps| :: ps[i].title == Str(t)
  }

  /** `grouped[k]` of a `defaultdict(list)` */
  function Posts(g: Store, k: string): seq<Post> {
    if k in g then g[k] else []
  }

  /** Lines 86-90: every existing post, re-normalised, under its group; a group
      whose list is empty is never touched and so does not appear. */
  function Seed(existing: Store, norm: Normalizer): Store {
    map k | k in existing && existing[k] != [] :: RenormalizeAll(existing[k], norm)
  }

  /** One round of the loop at lines 92-109. */
  function Admit(g: Store, q: Incoming, norm: Normalizer): Store {
    if !Admissible(q) then g
    else
      var k := q.group.s;
      if HasTitle(Posts(g, k), q.title.s) then g
      else g[k := Posts(g, k) + [Convert(q, norm)]]
  }

  /** The loop at lines 92-109 over a whole batch. */
  function AdmitAll(g: Store, qs: seq<Incoming>, norm: Normalizer): Store
    decreases |qs|
  {
    if qs == [] then g else Admit(AdmitAll(g, qs[..|qs| - 1], norm), qs[|qs| - 1], norm)
  }

  /** `grouped` as it stands before the final sort. */
  function Collected(existing: Store, incoming: seq<Incoming>, norm: Normalizer): Store {
    AdmitAll(Seed(existing, norm), incoming, norm)
  }

  /** The sort key `p.get("discovered", "")`. */
  function Key(p: Post): string {
    Show(p.discovered)
  }

  /** Puts `p` before the first post whose key is not smaller. */
  function Insert(p: Post, ps: seq<Post>): seq<Post>
    decreases |ps|
  {
    if ps == [] || LexLe(Key(p), Key(ps[0])) then [p] + ps else [ps[0]] + Insert(p, ps[1..])
  }

  /** `sorted(ps, key=lambda p: p.get("discovered", ""))`, a stable sort. */
  function SortPosts(ps: seq<Post>): seq<Post>
    decreases |ps|
  {
    if ps == [] then [] else Insert(ps[0], SortPosts(ps[1..]))
  }

  /** Lines 111-112. */
  function SortAll(g: Store): Store {
    map k | k in g :: SortPosts(g[k])
  }

  /** The result of `dedupe_and_merge(existing, incoming)`. */
  function Merge(existing: Store, incoming: seq<Incoming>, norm: Normalizer): Store {
    SortAll(Collected(existing, incoming, norm))
  }

  predicate Sorted(ps: seq<Post>) {
    forall i, j | 0 <= i < j < |ps| :: LexLe(Key(ps[i]), Key(ps[j]))
  }

  /** The posts of `ps` whose key is `d`, in their order. */
  function WithKey(ps: seq<Post>, d: string): seq<Post>
    decreases |ps|
  {
    if ps == [] then [] else (if Key(ps[0]) == d then [ps[0]] else []) + WithKey(ps[1..], d)
  }

  function TitleOf(p: Post): multiset<string> {
    if p.title.Str? then multiset{p.title.s} else multiset{}
  }

  /** The string titles of `ps`, counted with repetition. */
  function TitleBag(ps: seq<Post>): multiset<string>
    decreases |ps|
  {
    if ps == [] then multiset{} else TitleOf(ps[0]) + TitleBag(ps[1..])
  }

  /** No string title occurs twice. */
  ghost predicate UniqueTitles(ps: seq<Post>) {
    forall t :: TitleBag(ps)[t] <= 1
  }

  /** `discovered` is already in the form the merge gives it. */
  predicate Settled(p: Post, norm: Normalizer) {
    Renormalize(p, norm) == p
  }

  // ---------------------------------------------------------------------
  // The sort

  lemma {:induction false} InsertPermutation(p: Post, ps: seq<Post>)
    ensures multiset(Insert(p, ps)) == multiset(ps) + multiset{p}
    ensures |Insert(p, ps)| == |ps| + 1
    decreases |ps|
  {
    if ps != [] && !LexLe(Key(p), Key(ps[0])) {
      InsertPermutation(p, ps[1..]);
      assert ps == [ps[0]] + ps[1..];
    }
  }

  /** The sort rearranges its input and nothing more. */
  lemma {:induction false} SortPermutation(ps: seq<Post>)
    ensures multiset(SortPosts(ps)) == multiset(ps)
    ensures |SortPosts(ps)| == |ps|
    decreases |ps|
  {
    if ps != [] {
      var rest := SortPosts(ps[1..]);
      SortPermutation(ps[1..]);
      InsertPermutation(ps[0], rest);
      assert SortPosts(ps) == Insert(ps[0], rest);
      assert multiset(ps) == multiset(ps[1..]) + multiset{ps[0]} by {
        assert ps == [ps[0]] + ps[1..];
      }
    }
  }

  lemma {:induction false} InsertSorted(p: Post, ps: seq<Post>)
    requires Sorted(ps)
    ensures Sorted(Insert(p, ps))
    decreases |ps|
  {
    if ps != [] && !LexLe(Key(p), Key(ps[0])) {
      var tail := Insert(p, ps[1..]);
      InsertSorted(p, ps[1..]);
      InsertPermutation(p, ps[1..]);
      LexLeTotal(Key(p), Key(ps[0]));
      forall j | 0 <= j < |tail|
        ensures LexLe(Key(ps[0]), Key(tail[j]))
      {
        assert tail[j] in multiset(ps[1..]) + multiset{p};
        if tail[j] != p {
          var m :| 1 <= m < |ps| && ps[m] == tail[j] by {
            assert tail[j] in ps[1..];
          }
        }
      }
      var r := [ps[0]] + tail;
      forall i, j | 0 <= i < j < |r|
        ensures LexLe(Key(r[i]), Key(r[j]))
      {
        if i > 0 {
          assert r[i] == tail[i - 1] && r[j] == tail[j - 1];
        } else {
          assert r[j] == tail[j - 1];
        }
      }
    } else if ps != [] {
      var r := [p] + ps;
      forall i, j | 0 <= i < j < |r|
        ensures LexLe(Key(r[i]), Key(r[j]))
      {
        if i == 0 && j > 1 {
          LexLeTransitive(Key(p), Key(ps[0]), Key(ps[j - 1]));
        }
      }
    }
  }

  /** The sort puts every list in non-decreasing `discovered` order. */
  lemma {:induction false} SortSorted(ps: seq<Post>)
    ensures Sorted(SortPosts(ps))
    decreases |ps|
  {
    if ps != [] {
      SortSorted(ps[1..]);
      InsertSorted(ps[0], SortPosts(ps[1..]));
    }
  }

  lemma WithKeyCons(p: Post, ps: seq<Post>, d: string)
    ensures WithKey([p] + ps, d) == (if Key(p) == d then [p] else []) + WithKey(ps, d)
  {
    assert ([p] + ps)[1..] == ps;
  }

  lemma {:induction false} InsertWithKey(p: Post, ps: seq<Post>, d: string)
    ensures WithKey(Insert(p, ps), d) == (if Key(p) == d then [p] else []) + WithKey(ps, d)
    decreases |ps|
  {
    if ps == [] || LexLe(Key(p), Key(ps[0])) {
      WithKeyCons(p, ps, d);
    } else {
      LexLeReflexive(Key(p));
      InsertWithKey(p, ps[1..], d);
      WithKeyCons(ps[0], Insert(p, ps[1..]), d);
      WithKeyCons(ps[0], ps[1..], d);
      assert [ps[0]] + ps[1..] == ps;
    }
  }

  /** Stability: posts with equal keys keep their relative order. */
  lemma {:induction false} SortStable(ps: seq<Post>, d: string)
    ensures WithKey(SortPosts(ps), d) == WithKey(ps, d)
    decreases |ps|
  {
    if ps != [] {
      SortStable(ps[1..], d);
      InsertWithKey(ps[0], SortPosts(ps[1..]), d);
    }
  }

  /** A list already in order is left as it is. */
  lemma {:induction false} SortSortedIdentity(ps: seq<Post>)
    requires Sorted(ps)
    ensures SortPosts(ps) == ps
    decreases |ps|
  {
    if ps != [] {
      assert Sorted(ps[1..]) by {
        forall i, j | 0 <= i < j < |ps| - 1
          ensures LexLe(Key(ps[1..][i]), Key(ps[1..][j]))
        {
          assert ps[1..][i] == ps[i + 1] && ps[1..][j] == ps[j + 1];
        }
      }
      SortSortedIdentity(ps[1..]);
      assert ps == [ps[0]] + ps[1..];
    }
  }

  lemma TitleBagCons(p: Post, ps: seq<Post>)
    ensures TitleBag([p] + ps) == TitleOf(p) + TitleBag(ps)
  {
    assert ([p] + ps)[1..] == ps;
  }

  lemma {:induction false} TitleBagInsert(p: Post, ps: seq<Post>)
    ensures TitleBag(Insert(p, ps)) == TitleBag(ps) + TitleOf(p)
    decreases |ps|
  {
    if ps == [] || LexLe(Key(p), Key(ps[0])) {
      TitleBagCons(p, ps);
    } else {
      TitleBagInsert(p, ps[1..]);
      TitleBagCons(ps[0], Insert(p, ps[1..]));
    }
  }

  lemma {:induction false} TitleBagSort(ps: seq<Post>)
    ensures TitleBag(SortPosts(ps)) == TitleBag(ps)
    decreases |ps|
  {
    if ps != [] {
      TitleBagSort(ps[1..]);
      TitleBagInsert(ps[0], SortPosts(ps[1..]));
    }
  }

  lemma {:induction false} TitleBagAppend(ps: seq<Post>, p: Post)
    ensures TitleBag(ps + [p]) == TitleBag(ps) + TitleOf(p)
    decreases |ps|
  {
    if ps == [] {
      assert ps + [p] == [p] + [];
      TitleBagCons(p, []);
    } else {
      var rest := ps[1..];
      calc {
        TitleBag(ps + [p]);
        { assert ps + [p] == [ps[0]] + (rest + [p]); TitleBagCons(ps[0], rest + [p]); }
        TitleOf(ps[0]) + TitleBag(rest + [p]);
        { TitleBagAppend(rest, p); }
        TitleOf(ps[0]) + (TitleBag(rest) + TitleOf(p));
        (TitleOf(ps[0]) + TitleBag(rest)) + TitleOf(p);
      }
    }
  }

  lemma {:induction false} TitleBagHas(ps: seq<Post>, t: string)
    ensures HasTitle(ps, t) <==> TitleBag(ps)[t] > 0
    decreases |ps|
  {
    if ps != [] {
      TitleBagHas(ps[1..], t);
      if HasTitle(ps[1..], t) {
        var i :| 0 <= i < |ps| - 1 && ps[1..][i].title == Str(t);
        assert ps[i + 1].title == Str(t);
      }
      if HasTitle(ps, t) && ps[0].title != Str(t) {
        var i :| 0 <= i < |ps| && ps[i].title == Str(t);
        assert ps[1..][i - 1].title == Str(t);
      }
    }
  }

  lemma {:induction false} TitleBagRenormalize(ps: seq<Post>, norm: Normalizer)
    ensures TitleBag(RenormalizeAll(ps, norm)) == TitleBag(ps)
    decreases |ps|
  {
    if ps != [] {
      var rest := ps[1..];
      TitleBagRenormalize(rest, norm);
      assert RenormalizeAll(ps, norm) == [Renormalize(ps[0], norm)] + RenormalizeAll(rest, norm);
      TitleBagCons(Renormalize(ps[0], norm), RenormalizeAll(rest, norm));
      assert TitleBag(ps) == TitleOf(ps[0]) + TitleBag(rest);
    }
  }

  // ---------------------------------------------------------------------
  // The batch loop

  lemma AdmitAllLast(g: Store, qs: seq<Incoming>, norm: Normalizer)
    requires qs != []
    ensures AdmitAll(g, qs, norm) == Admit(AdmitAll(g, qs[..|qs| - 1], norm), qs[|qs| - 1], norm)
  {
  }

  /** A group is present after the batch iff it was before or a kept post
      names it. */
  lemma {:induction false} AdmitAllKeys(g: Store, qs: seq<Incoming>, norm: Normalizer, k: string)
    ensures k in AdmitAll(g, qs, norm) <==>
      k in g || exists i | 0 <= i < |qs| :: Admissible(qs[i]) && qs[i].group.s == k
    decreases |qs|
  {
    if qs != [] {
      var n := |qs| - 1;
      AdmitAllKeys(g, qs[..n], norm, k);
      if exists i | 0 <= i < |qs| :: Admissible(qs[i]) && qs[i].group.s == k {
        var i :| 0 <= i < |qs| && Admissible(qs[i]) && qs[i].group.s == k;
        if i < n {
          assert qs[..n][i] == qs[i];
        }
      }
      if exists i | 0 <= i < n :: Admissible(qs[..n][i]) && qs[..n][i].group.s == k {
        var i :| 0 <= i < n && Admissible(qs[..n][i]) && qs[..n][i].group.s == k;
        assert qs[i] == qs[..n][i];
      }
    }
  }

  /** The batch only appends: every group's earlier list is a prefix of its
      later one. */
  lemma {:induction false} AdmitAllPrefix(g: Store, qs: seq<Incoming>, norm: Normalizer, k: string)
    ensures Posts(g, k) <= Posts(AdmitAll(g, qs, norm), k)
    decreases |qs|
  {
    if qs != [] {
      AdmitAllPrefix(g, qs[..|qs| - 1], norm, k);
    }
  }

  /** Each post after the batch was there before or was built from a kept
      incoming post of that group. */
  lemma {:induction false} AdmitAllFrom(g: Store, qs: seq<Incoming>, norm: Normalizer, k: string, p: Post)
    requires p in Posts(AdmitAll(g, qs, norm), k)
    ensures p in Posts(g, k) || exists i | 0 <= i < |qs| ::
      Admissible(qs[i]) && qs[i].group.s == k && p == Convert(qs[i], norm)
    decreases |qs|
  {
    if qs != [] {
      var n := |qs| - 1;
      var before := AdmitAll(g, qs[..n], norm);
      if p in Posts(before, k) {
        AdmitAllFrom(g, qs[..n], norm, k, p);
        if !(p in Posts(g, k)) {
          var i :| 0 <= i < n && Admissible(qs[..n][i]) && qs[..n][i].group.s == k
            && p == Convert(qs[..n][i], norm);
          assert qs[i] == qs[..n][i];
        }
      }
    }
  }

  /** After the batch, every kept incoming post's title is in its group. */
  lemma {:induction false} AdmitAllHasTitle(g: Store, qs: seq<Incoming>, norm: Normalizer, i: nat)
    requires i < |qs| && Admissible(qs[i])
    ensures HasTitle(Posts(AdmitAll(g, qs, norm), qs[i].group.s), qs[i].title.s)
    decreases |qs|
  {
    var n := |qs| - 1;
    var k := qs[i].group.s;
    var before := AdmitAll(g, qs[..n], norm);
    var after := AdmitAll(g, qs, norm);
    AdmitAllPrefix(before, [qs[n]], norm, k);
    assert [qs[n]][..0] == [];
    if i < n {
      assert qs[..n][i] == qs[i];
      AdmitAllHasTitle(g, qs[..n], norm, i);
      var j :| 0 <= j < |Posts(before, k)| && Posts(before, k)[j].title == Str(qs[i].title.s);
      assert Posts(after, k)[j] == Posts(before, k)[j];
    } else if !HasTitle(Posts(before, k), qs[i].title.s) {
      assert Posts(after, k)[|Posts(before, k)|] == Convert(qs[i], norm);
    } else {
      var j :| 0 <= j < |Posts(before, k)| && Posts(before, k)[j].title == Str(qs[i].title.s);
      assert Posts(after, k)[j] == Posts(before, k)[j];
    }
  }

  /** Titles unique before the batch stay unique. */
  lemma {:induction false} AdmitAllUnique(g: Store, qs: seq<Incoming>, norm: Normalizer, k: string)
    requires UniqueTitles(Posts(g, k))
    ensures UniqueTitles(Posts(AdmitAll(g, qs, norm), k))
    decreases |qs|
  {
    if qs != [] {
      var n := |qs| - 1;
      var before := AdmitAll(g, qs[..n], norm);
      AdmitAllUnique(g, qs[..n], norm, k);
      var q := qs[n];
      if Admissible(q) && q.group.s == k && !HasTitle(Posts(before, k), q.title.s) {
        TitleBagAppend(Posts(before, k), Convert(q, norm));
        TitleBagHas(Posts(before, k), q.title.s);
      }
    }
  }

  /** A title the group had before the batch is carried only by the posts it
      had before: no incoming post with that title is added. */
  lemma {:induction false} AdmitAllKeepsTitle(g: Store, qs: seq<Incoming>, norm: Normalizer, k: string, t: string, p: Post)
    requires HasTitle(Posts(g, k), t)
    requires p in Posts(AdmitAll(g, qs, norm), k) && p.title == Str(t)
    ensures p in Posts(g, k)
    decreases |qs|
  {
    if qs != [] {
      var n := |qs| - 1;
      var before := AdmitAll(g, qs[..n], norm);
      AdmitAllPrefix(g, qs[..n], norm, k);
      var j :| 0 <= j < |Posts(g, k)| && Posts(g, k)[j].title == Str(t);
      assert Posts(before, k)[j] == Posts(g, k)[j];
      if p in Posts(before, k) {
        AdmitAllKeepsTitle(g, qs[..n], norm, k, t, p);
      }
    }
  }

  /** `i` is the first kept incoming post of group `k` with title `t`. */
  predicate FirstOf(qs: seq<Incoming>, k: string, t: string, i: nat) {
    && i < |qs| && Admissible(qs[i]) && qs[i].group.s == k && qs[i].title.s == t
    && forall j | 0 <= j < i :: !(Admissible(qs[j]) && qs[j].group.s == k && qs[j].title.s == t)
  }

  /** Before its first occurrence, a title new to the group is absent. */
  lemma NotYet(g: Store, qs: seq<Incoming>, norm: Normalizer, k: string, t: string, i: nat)
    requires FirstOf(qs, k, t, i) && !HasTitle(Posts(g, k), t)
    ensures !HasTitle(Posts(AdmitAll(g, qs[..i], norm), k), t)
  {
    var ps := Posts(AdmitAll(g, qs[..i], norm), k);
    forall m | 0 <= m < |ps|
      ensures ps[m].title != Str(t)
    {
      AdmitAllFrom(g, qs[..i], norm, k, ps[m]);
      assert forall j | 0 <= j < i :: qs[..i][j] == qs[j];
    }
  }

  /** First seen wins: a title new to the group is taken from its first
      kept incoming post and from no other. */
  lemma {:induction false} AdmitAllFirst(g: Store, qs: seq<Incoming>, norm: Normalizer, k: string, t: string,
                                         i: nat, p: Post)
    requires FirstOf(qs, k, t, i) && !HasTitle(Posts(g, k), t)
    requires p in Posts(AdmitAll(g, qs, norm), k) && p.title == Str(t)
    ensures p == Convert(qs[i], norm)
    decreases |qs|
  {
    var n := |qs| - 1;
    var before := AdmitAll(g, qs[..n], norm);
    if n == i {
      NotYet(g, qs, norm, k, t, i);
      assert forall m | 0 <= m < |Posts(before, k)| :: Posts(before, k)[m].title != Str(t);
    } else {
      assert qs[..n][i] == qs[i];
      assert FirstOf(qs[..n], k, t, i) by {
        assert forall j | 0 <= j <= i :: qs[..n][j] == qs[j];
      }
      AdmitAllHasTitle(g, qs[..n], norm, i);
      if p in Posts(before, k) {
        AdmitAllFirst(g, qs[..n], norm, k, t, i, p);
      }
    }
  }

  /** A batch whose every kept post already has its title in its group
      changes nothing. */
  lemma {:induction false} AdmitAllNoop(g: Store, qs: seq<Incoming>, norm: Normalizer)
    requires forall i | 0 <= i < |qs| :: Admissible(qs[i]) ==> HasTitle(Posts(g, qs[i].group.s), qs[i].title.s)
    ensures AdmitAll(g, qs, norm) == g
    decreases |qs|
  {
    if qs != [] {
      var n := |qs| - 1;
      assert forall i | 0 <= i < n :: qs[..n][i] == qs[i];
      AdmitAllNoop(g, qs[..n], norm);
    }
  }

  lemma {:induction false} AdmitAllSettled(g: Store, qs: seq<Incoming>, norm: Normalizer, k: string)
    requires Idempotent(norm)
    requires forall p | p in Posts(g, k) :: Settled(p, norm)
    ensures forall p | p in Posts(AdmitAll(g, qs, norm), k) :: Settled(p, norm)
  {
    forall p | p in Posts(AdmitAll(g, qs, norm), k)
      ensures Settled(p, norm)
    {
      AdmitAllFrom(g, qs, norm, k, p);
      if !(p in Posts(g, k)) {
        var i :| 0 <= i < |qs| && Admissible(qs[i]) && qs[i].group.s == k && p == Convert(qs[i], norm);
      }
    }
  }

  lemma {:induction false} AdmitAllNonEmpty(g: Store, qs: seq<Incoming>, norm: Normalizer, k: string)
    requires k in g ==> g[k] != []
    requires k in AdmitAll(g, qs, norm)
    ensures AdmitAll(g, qs, norm)[k] != []
    decreases |qs|
  {
    if qs != [] {
      var n := |qs| - 1;
      var before := AdmitAll(g, qs[..n], norm);
      if k in before {
        AdmitAllNonEmpty(g, qs[..n], norm, k);
      }
    }
  }

  // ---------------------------------------------------------------------
  // The merge

  lemma SeedPosts(existing: Store, norm: Normalizer, k: string)
    ensures Posts(Seed(existing, norm), k) == RenormalizeAll(Posts(existing, k), norm)
  {
  }

  lemma MergePosts(existing: Store, incoming: seq<Incoming>, norm: Normalizer, k: string)
    ensures Posts(Merge(existing, incoming, norm), k) == SortPosts(Posts(Collected(existing, incoming, norm), k))
  {
  }

  /** A group appears in the result iff it had at least one stored post or a
      kept incoming post names it. */
  lemma MergeKeys(existing: Store, incoming: seq<Incoming>, norm: Normalizer, k: string)
    ensures k in Merge(existing, incoming, norm) <==>
      (k in existing && existing[k] != []) ||
      exists i | 0 <= i < |incoming| :: Admissible(incoming[i]) && incoming[i].group.s == k
  {
    AdmitAllKeys(Seed(existing, norm), incoming, norm, k);
  }

  /** Every group's merged list is non-decreasing in `discovered`. */
  lemma MergeSorted(existing: Store, incoming: seq<Incoming>, norm: Normalizer, k: string)
    requires k in Merge(existing, incoming, norm)
    ensures Sorted(Merge(existing, incoming, norm)[k])
  {
    SortSorted(Collected(existing, incoming, norm)[k]);
  }

  /** Posts with equal `discovered` keep the order in which they were
      collected: stored posts first, then the batch in order. */
  lemma MergeStable(existing: Store, incoming: seq<Incoming>, norm: Normalizer, k: string, d: string)
    ensures WithKey(Posts(Merge(existing, incoming, norm), k), d)
         == WithKey(Posts(Collected(existing, incoming, norm), k), d)
  {
    MergePosts(existing, incoming, norm, k);
    SortStable(Posts(Collected(existing, incoming, norm), k), d);
  }

  /** Every stored post survives, duplicates included, with only its
      `discovered` re-normalised. */
  lemma MergeKeepsExisting(existing: Store, incoming: seq<Incoming>, norm: Normalizer, k: string)
    ensures multiset(RenormalizeAll(Posts(existing, k), norm)) <= multiset(Posts(Merge(existing, incoming, norm), k))
  {
    var seed := Seed(existing, norm);
    var c := Posts(Collected(existing, incoming, norm), k);
    SeedPosts(existing, norm, k);
    AdmitAllPrefix(seed, incoming, norm, k);
    assert c == Posts(seed, k) + c[|Posts(seed, k)|..];
    MergePosts(existing, incoming, norm, k);
    SortPermutation(c);
  }

  /** Every merged post is a stored post of the group, re-normalised, or the
      record built from a kept incoming post of the group. */
  lemma MergeFrom(existing: Store, incoming: seq<Incoming>, norm: Normalizer, k: string, p: Post)
    requires p in Posts(Merge(existing, incoming, norm), k)
    ensures p in RenormalizeAll(Posts(existing, k), norm) || exists i | 0 <= i < |incoming| ::
      Admissible(incoming[i]) && incoming[i].group.s == k && p == Convert(incoming[i], norm)
  {
    var c := Posts(Collected(existing, incoming, norm), k);
    MergePosts(existing, incoming, norm, k);
    SortPermutation(c);
    assert p in multiset(c);
    SeedPosts(existing, norm, k);
    AdmitAllFrom(Seed(existing, norm), incoming, norm, k, p);
  }

  /** A group whose titles were unique still has unique titles. */
  lemma MergeUnique(existing: Store, incoming: seq<Incoming>, norm: Normalizer, k: string)
    requires UniqueTitles(Posts(existing, k))
    ensures UniqueTitles(Posts(Merge(existing, incoming, norm), k))
  {
    SeedPosts(existing, norm, k);
    TitleBagRenormalize(Posts(existing, k), norm);
    AdmitAllUnique(Seed(existing, norm), incoming, norm, k);
    MergePosts(existing, incoming, norm, k);
    TitleBagSort(Posts(Collected(existing, incoming, norm), k));
  }

  /** A title the group already had is never taken from the batch: its posts
      are the stored ones, so their `discovered` is not revised. */
  lemma MergeNeverRevised(existing: Store, incoming: seq<Incoming>, norm: Normalizer, k: string, t: string, p: Post)
    requires HasTitle(Posts(existing, k), t)
    requires p in Posts(Merge(existing, incoming, norm), k) && p.title == Str(t)
    ensures p in RenormalizeAll(Posts(existing, k), norm)
  {
    var seed := Seed(existing, norm);
    var c := Posts(Collected(existing, incoming, norm), k);
    SeedPosts(existing, norm, k);
    TitleBagRenormalize(Posts(existing, k), norm);
    TitleBagHas(Posts(existing, k), t);
    TitleBagHas(Posts(seed, k), t);
    MergePosts(existing, incoming, norm, k);
    SortPermutation(c);
    assert p in multiset(c);
    AdmitAllKeepsTitle(seed, incoming, norm, k, t, p);
  }

  /** First seen wins: a title new to the group comes from the first kept
      incoming post that carries it, and that post is in the result. */
  lemma MergeFirstSeen(existing: Store, incoming: seq<Incoming>, norm: Normalizer, k: string, t: string, i: nat)
    requires FirstOf(incoming, k, t, i) && !HasTitle(Posts(existing, k), t)
    ensures Convert(incoming[i], norm) in Posts(Merge(existing, incoming, norm), k)
    ensures forall p | p in Posts(Merge(existing, incoming, norm), k) && p.title == Str(t) ::
      p == Convert(incoming[i], norm)
  {
    var seed := Seed(existing, norm);
    var c := Posts(Collected(existing, incoming, norm), k);
    SeedPosts(existing, norm, k);
    TitleBagRenormalize(Posts(existing, k), norm);
    TitleBagHas(Posts(existing, k), t);
    TitleBagHas(Posts(seed, k), t);
    MergePosts(existing, incoming, norm, k);
    SortPermutation(c);
    forall p | p in Posts(Merge(existing, incoming, norm), k) && p.title == Str(t)
      ensures p == Convert(incoming[i], norm)
    {
      assert p in multiset(c);
      AdmitAllFirst(seed, incoming, norm, k, t, i, p);
    }
    AdmitAllHasTitle(seed, incoming, norm, i);
    var j :| 0 <= j < |c| && c[j].title == Str(t);
    AdmitAllFirst(seed, incoming, norm, k, t, i, c[j]);
    assert c[j] in multiset(SortPosts(c));
  }

  /** Re-normalising a post a second time changes nothing. */
  lemma SeedSettled(existing: Store, norm: Normalizer, k: string)
    requires Idempotent(norm)
    ensures forall p | p in Posts(Seed(existing, norm), k) :: Settled(p, norm)
  {
    forall p | p in Posts(Seed(existing, norm), k)
      ensures Settled(p, norm)
    {
      var ps := Posts(existing, k);
      var i :| 0 <= i < |ps| && Posts(Seed(existing, norm), k)[i] == p;
      assert p == Renormalize(ps[i], norm);
    }
  }

  lemma RenormalizeSettled(ps: seq<Post>, norm: Normalizer)
    requires forall p | p in ps :: Settled(p, norm)
    ensures RenormalizeAll(ps, norm) == ps
  {
    assert forall i | 0 <= i < |ps| :: Settled(ps[i], norm);
  }

  lemma SeedIdentity(g: Store, norm: Normalizer)
    requires forall k | k in g :: g[k] != [] && RenormalizeAll(g[k], norm) == g[k]
    ensures Seed(g, norm) == g
  {
  }

  /** The merged store, used as the stored posts, is its own seed. */
  lemma MergeReseed(existing: Store, incoming: seq<Incoming>, norm: Normalizer)
    requires Idempotent(norm)
    ensures Seed(Merge(existing, incoming, norm), norm) == Merge(existing, incoming, norm)
  {
    var m := Merge(existing, incoming, norm);
    var c := Collected(existing, incoming, norm);
    forall k | k in m
      ensures m[k] != [] && RenormalizeAll(m[k], norm) == m[k]
    {
      SortPermutation(c[k]);
      AdmitAllNonEmpty(Seed(existing, norm), incoming, norm, k);
      SeedSettled(existing, norm, k);
      AdmitAllSettled(Seed(existing, norm), incoming, norm, k);
      forall p | p in m[k]
        ensures Settled(p, norm)
      {
        assert p in multiset(c[k]);
      }
      RenormalizeSettled(m[k], norm);
    }
    SeedIdentity(m, norm);
  }

  /** Every kept post of the batch finds its title already in the merged
      store. */
  lemma MergeHasTitles(existing: Store, incoming: seq<Incoming>, norm: Normalizer)
    ensures forall i | 0 <= i < |incoming| && Admissible(incoming[i]) ::
      HasTitle(Posts(Merge(existing, incoming, norm), incoming[i].group.s), incoming[i].title.s)
  {
    var m := Merge(existing, incoming, norm);
    var c := Collected(existing, incoming, norm);
    forall i | 0 <= i < |incoming| && Admissible(incoming[i])
      ensures HasTitle(Posts(m, incoming[i].group.s), incoming[i].title.s)
    {
      var k := incoming[i].group.s;
      AdmitAllHasTitle(Seed(existing, norm), incoming, norm, i);
      TitleBagHas(Posts(c, k), incoming[i].title.s);
      TitleBagSort(Posts(c, k));
      MergePosts(existing, incoming, norm, k);
      TitleBagHas(Posts(m, k), incoming[i].title.s);
    }
  }

  /** Feeding the result back in with the same batch gives the same result. */
  lemma MergeIdempotent(existing: Store, incoming: seq<Incoming>, norm: Normalizer)
    requires Idempotent(norm)
    ensures Merge(Merge(existing, incoming, norm), incoming, norm) == Merge(existing, incoming, norm)
  {
    var m := Merge(existing, incoming, norm);
    MergeReseed(existing, incoming, norm);
    MergeHasTitles(existing, incoming, norm);
    AdmitAllNoop(m, incoming, norm);
    forall k | k in m
      ensures SortPosts(m[k]) == m[k]
    {
      MergeSorted(existing, incoming, norm, k);
      SortSortedIdentity(m[k]);
    }
  }

  /** With `normalize_date` as the normaliser, the merge is idempotent. */
  lemma MergeIdempotentDates(existing: Store, incoming: seq<Incoming>, fallback: string -> Option<Stamp>)
    ensures var norm := DateNormalizer(fallback);
      Merge(Merge(existing, incoming, norm), incoming, norm) == Merge(existing, incoming, norm)
  {
    DateNormalizerIdempotent(fallback);
    MergeIdempotent(existing, incoming, DateNormalizer(fallback));
  }

  /** The record kept for an incoming post (lines 96-103) has all six keys:
      its title is the incoming title; its description is a string, empty
      exactly when the incoming one is missing, `None` or empty; its
      `discovered` is the incoming text or a canonical timestamp, already in
      the form a later merge gives it; and link, magnet and screen are the
      incoming values where present. */
  lemma ConvertFields(q: Incoming, fallback: string -> Option<Stamp>)
    requires Admissible(q)
    ensures var p := Convert(q, DateNormalizer(fallback));
      && p.title == q.title
      && p.description.Str? && (p.description.s == "" <==> !Truthy(q.description))
      && (Truthy(q.description) ==> p.description == q.description)
      && p.discovered.Str? && (p.discovered.s == Show(q.discovered) || Canonical(p.discovered.s))
      && Settled(p, DateNormalizer(fallback))
      && !p.link.Absent? && !p.magnet.Absent? && !p.screen.Absent?
      && (!q.link.Absent? ==> p.link == q.link)
      && (!q.magnet.Absent? ==> p.magnet == q.magnet)
      && (!q.screen.Absent? ==> p.screen == q.screen)
  {
    NormalizeResult(Show(q.discovered), fallback);
    NormalizeIdempotent(Show(q.discovered), fallback);
  }

  // ---------------------------------------------------------------------
  // The procedure

  /** Lines 86-90: file every stored post, re-normalised, under its group of
      a fresh `defaultdict(list)`. */
  method Regroup(existing: Store, norm: Normalizer) returns (grouped: Store)
    ensures grouped == Seed(existing, norm)
  {
    grouped := map[];
    var todo := existing.Keys;
    while todo != {}
      invariant todo <= existing.Keys
      invariant forall k :: k in grouped <==> k in existing && k !in todo && existing[k] != []
      invariant forall k | k in grouped :: grouped[k] == RenormalizeAll(existing[k], norm)
      decreases |todo|
    {
      var k :| k in todo;
      var posts := existing[k];
      var i := 0;
      while i < |posts|
        invariant 0 <= i <= |posts|
        invariant forall h :: h in grouped <==>
          (h in existing && h !in todo && existing[h] != []) || (h == k && i > 0)
        invariant forall h | h in grouped && h != k :: grouped[h] == RenormalizeAll(existing[h], norm)
        invariant i > 0 ==> grouped[k] == RenormalizeAll(posts[..i], norm)
      {
        var post := posts[i].(discovered := Str(norm(Show(posts[i].discovered))));
        grouped := grouped[k := Posts(grouped, k) + [post]];
        i := i + 1;
      }
      assert posts[..|posts|] == posts;
      todo := todo - {k};
    }
  }

  /** Lines 92-109: add each incoming post that names a group, has a title,
      and whose title its group does not have yet. */
  method AdmitBatch(start: Store, incoming: seq<Incoming>, norm: Normalizer) returns (grouped: Store)
    ensures grouped == AdmitAll(start, incoming, norm)
  {
    grouped := start;
    var j := 0;
    while j < |incoming|
      invariant 0 <= j <= |incoming|
      invariant grouped == AdmitAll(start, incoming[..j], norm)
    {
      var post := incoming[j];
      assert incoming[..j + 1][..j] == incoming[..j];
      if Truthy(post.group) {
        var group := post.group.s;
        var newPost := Post(if post.title.Absent? then Str("") else post.title,
                            Str(norm(Show(post.discovered))),
                            if Truthy(post.description) then post.description else Str(""),
                            Get(post.link), Get(post.magnet), Get(post.screen));
        if Truthy(newPost.title) {
          var titles := set p | p in Posts(grouped, group) :: p.title;
          if newPost.title !in titles {
            grouped := grouped[group := Posts(grouped, group) + [newPost]];
          } else {
            ghost var p :| p in Posts(grouped, group) && p.title == newPost.title;
          }
        }
      }
      j := j + 1;
    }
    assert incoming[..|incoming|] == incoming;
  }

  /** Lines 111-112: replace every group's list by its sorted copy. */
  method SortGroups(collected: Store) returns (grouped: Store)
    ensures grouped == SortAll(collected)
  {
    grouped := collected;
    var todo := grouped.Keys;
    while todo != {}
      invariant todo <= collected.Keys && grouped.Keys == collected.Keys
      invariant forall k | k in grouped :: grouped[k] == if k in todo then collected[k] else SortPosts(collected[k])
      decreases |todo|
    {
      var k :| k in todo;
      grouped := grouped[k := SortPosts(grouped[k])];
      todo := todo - {k};
    }
  }

  /** `dedupe_and_merge(existing, incoming)`. */
  method DedupeAndMerge(existing: Store, incoming: seq<Incoming>, fallback: string -> Option<Stamp>)
    returns (grouped: Store)
    ensures grouped == Merge(existing, incoming, DateNormalizer(fallback))
  {
    var norm := DateNormalizer(fallback);
    grouped := Regroup(existing, norm);
    grouped := AdmitBatch(grouped, incoming, norm);
    grouped := SortGroups(grouped);
  }
}
