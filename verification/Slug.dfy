/**
 Ids derived from names: slugs, unique slugs for new schedules, and the ids
 given to blocks that come without one.
 */
module Slugs {
  import opened Sets
  import opened Text
  import opened ScheduleModel

  // Letters, digits and hyphens are kept; every other run of characters separates.
  predicate Keeps(c: char) {
    'a' <= c <= 'z' || '0' <= c <= '9' || c == '-'
  }

  // Kept characters, with single underscores strictly between them.
  ghost predicate IsSlug(x: string) {
    forall i :: 0 <= i < |x| && !Keeps(x[i]) ==>
      x[i] == '_' && 0 < i < |x| - 1 && Keeps(x[i - 1]) && Keeps(x[i + 1])
  }

  // Trimming, lower-casing and transliterating change nothing in a slug.
  ghost predicate KeepsSlugs(prep: string -> string) {
    forall x :: IsSlug(x) ==> prep(x) == x
  }

  // The builder after one more character, and whether a separator is due.
  function Push(out: string, pending: bool, c: char): (string, bool) {
    if Keeps(c) then (out + (if pending && out != [] then "_" else "") + [c], false)
    else (out, true)
  }

  function SlugFrom(s: string, out: string, pending: bool): string {
    if s == [] then out
    else
      var (out', pending') := Push(out, pending, s[0]);
      SlugFrom(s[1..], out', pending')
  }

  function SlugOf(prep: string -> string, name: string): string {
    SlugFrom(prep(name), "", false)
  }

  method Slug(prep: string -> string, name: string) returns (r: string)
    ensures r == SlugOf(prep, name)
  {
    var s := prep(name);
    r := "";
    var pending := false;
    for i := 0 to |s|
      invariant SlugFrom(s, "", false) == SlugFrom(s[i..], r, pending)
    {
      assert s[i..][0] == s[i] && s[i..][1..] == s[i + 1..];
      assert r + "" == r;
      if Keeps(s[i]) {
        if pending && r != [] {
          r := r + "_";
        }
        pending := false;
        r := r + [s[i]];
      } else {
        pending := true;
      }
    }
  }

  // Growing a slug that ends in a kept character gives such a slug again.
  lemma PushKeepsSlug(out: string, pending: bool, c: char)
    requires IsSlug(out) && (out != [] ==> Keeps(out[|out| - 1]))
    ensures var r := Push(out, pending, c).0; IsSlug(r) && (r != [] ==> Keeps(r[|r| - 1]))
  {
  }

  lemma {:induction false} SlugFromIsSlug(s: string, out: string, pending: bool)
    requires IsSlug(out) && (out != [] ==> Keeps(out[|out| - 1]))
    ensures IsSlug(SlugFrom(s, out, pending))
  {
    if s == [] {
    } else {
      var (out', pending') := Push(out, pending, s[0]);
      PushKeepsSlug(out, pending, s[0]);
      SlugFromIsSlug(s[1..], out', pending');
    }
  }

  // Reading a slug from position i on rebuilds it.
  lemma {:induction false} SlugFromSlug(x: string, i: nat)
    requires IsSlug(x) && i <= |x|
    ensures (i == 0 || Keeps(x[i - 1])) ==> SlugFrom(x[i..], x[..i], false) == x
    ensures i > 0 && !Keeps(x[i - 1]) ==> SlugFrom(x[i..], x[..i - 1], true) == x
    decreases |x| - i
  {
    if i == |x| {
      assert x[..i] == x;
    } else {
      SlugFromSlug(x, i + 1);
      assert x[i..][0] == x[i] && x[i..][1..] == x[i + 1..];
      if i == 0 || Keeps(x[i - 1]) {
        if Keeps(x[i]) { assert x[..i] + "" + [x[i]] == x[..i + 1]; }
      } else {
        assert x[..i - 1] + "_" + [x[i]] == x[..i + 1];
      }
    }
  }

  /** The texts a slug leaves alone are exactly the slugs, so slugging is
      idempotent and validation accepts exactly the ids it can produce. */
  lemma SlugFixpoint(prep: string -> string, name: string)
    requires KeepsSlugs(prep)
    ensures IsSlug(SlugOf(prep, name))
    ensures SlugOf(prep, name) == name <==> IsSlug(name)
    ensures SlugOf(prep, SlugOf(prep, name)) == SlugOf(prep, name)
  {
    SlugFromIsSlug(prep(name), "", false);
    SlugFixes(prep, SlugOf(prep, name));
    if IsSlug(name) { SlugFixes(prep, name); }
  }

  lemma SlugFixes(prep: string -> string, x: string)
    requires KeepsSlugs(prep) && IsSlug(x)
    ensures SlugOf(prep, x) == x
  {
    SlugFromSlug(x, 0);
    assert x[0..] == x && x[..0] == "";
  }

  // The maximal runs of kept characters.
  function Words(s: string): (ws: seq<string>)
    ensures s != [] && Keeps(s[0]) ==> ws != []
  {
    if s == [] then []
    else if !Keeps(s[0]) then Words(s[1..])
    else if |s| > 1 && Keeps(s[1]) then
      var ws := Words(s[1..]);
      [[s[0]] + ws[0]] + ws[1..]
    else [[s[0]]] + Words(s[1..])
  }

  function Joined(ws: seq<string>): string { if ws == [] then "" else Join(ws, '_') }

  lemma JoinedCons(c: char, s: string)
    requires s != [] && s[0] == c && Keeps(c)
    ensures var ws := Words(s[1..]);
      Joined(Words(s)) == if ws == [] then [c] else if Keeps(s[1..][0]) then [c] + Joined(ws) else [c] + "_" + Joined(ws)
  {
    var ws := Words(s[1..]);
    if ws == [] {
    } else if Keeps(s[1..][0]) {
      assert Words(s) == [[c] + ws[0]] + ws[1..];
      assert Words(s)[1..] == ws[1..];
    } else {
      assert Words(s) == [[c]] + ws;
      assert Words(s)[1..] == ws;
    }
  }

  // What is still to be read adds its words to the builder.
  lemma {:induction false} SlugFromWords(s: string, out: string, pending: bool)
    ensures SlugFrom(s, out, pending) ==
      if Words(s) == [] then out
      else out + (if out != [] && (pending || !Keeps(s[0])) then "_" else "") + Joined(Words(s))
  {
    if s == [] {
    } else {
      var (out', pending') := Push(out, pending, s[0]);
      SlugFromWords(s[1..], out', pending');
      if Keeps(s[0]) { JoinedCons(s[0], s); }
    }
  }

  /** A slug is the runs of kept characters of the prepared name, in order,
      with one underscore between any two. */
  lemma SlugJoinsWords(prep: string -> string, name: string)
    ensures SlugOf(prep, name) == Joined(Words(prep(name)))
  {
    SlugFromWords(prep(name), "", false);
  }

  lemma SlugIsLevel(x: string)
    requires IsSlug(x)
    ensures Level(x)
  {
  }

  // --- unique slugs -------------------------------------------------------

  function Numbered(prefix: string, n: nat): string { prefix + Itoa(n) }

  lemma NumberedInjective(prefix: string, m: nat, n: nat)
    requires Numbered(prefix, m) == Numbered(prefix, n)
    ensures m == n
  {
    assert Numbered(prefix, m)[|prefix|..] == Itoa(m) && Numbered(prefix, n)[|prefix|..] == Itoa(n);
    ItoaInjective(m, n);
  }

  lemma NumberedFresh(prefix: string, n: nat)
    ensures forall m: nat :: m < n ==> Numbered(prefix, m) != Numbered(prefix, n)
  {
    hide Numbered;
    forall m: nat | m < n ensures Numbered(prefix, m) != Numbered(prefix, n) {
      if Numbered(prefix, m) == Numbered(prefix, n) { NumberedInjective(prefix, m, n); }
    }
  }

  // The names prefix<lo>, .., prefix<hi - 1>, all different.
  ghost function Names(prefix: string, lo: nat, hi: nat): (s: set<string>)
    requires lo <= hi
    ensures |s| == hi - lo
    ensures forall x :: x in s <==> exists n: nat :: lo <= n < hi && x == Numbered(prefix, n)
  {
    if lo == hi then {}
    else
      NumberedFresh(prefix, hi - 1);
      hide Numbered;
      Names(prefix, lo, hi - 1) + {Numbered(prefix, hi - 1)}
  }

  function SlugBase(prep: string -> string, name: string): string {
    if SlugOf(prep, name) == "" then "schedule" else SlugOf(prep, name)
  }

  // id is the first of prefix<lo>, prefix<lo + 1>, .. that is not taken.
  ghost predicate FirstFree(prefix: string, lo: nat, taken: set<string>, id: string) {
    exists n: nat :: lo <= n && IsFree(prefix, lo, taken, n) && id == Numbered(prefix, n)
  }

  ghost predicate IsFree(prefix: string, lo: nat, taken: set<string>, n: nat) {
    Numbered(prefix, n) !in taken && forall m: nat :: lo <= m < n ==> Numbered(prefix, m) in taken
  }

  /** An id outside `taken`, which is a slug: the base itself, or the first
      free of base-2, base-3, ..., found within |taken| + 1 candidates. */
  method UniqueSlug(prep: string -> string, name: string, taken: set<string>) returns (id: string)
    requires KeepsSlugs(prep)
    ensures id !in taken && IsSlug(id) && id != ""
    ensures var base := SlugBase(prep, name);
      if base !in taken then id == base else FirstFree(base + "-", 2, taken, id)
  {
    SlugFixpoint(prep, name);
    DefaultIsSlug();
    hide SlugOf, IsSlug, KeepsSlugs, FirstFree;
    var base := Slug(prep, name);
    if base == "" {
      base := "schedule";
    }
    if base !in taken {
      return base;
    }
    id := NumberedSlug(base, taken);
  }

  lemma DefaultIsSlug()
    ensures IsSlug("schedule")
  {
  }

  method NumberedSlug(base: string, taken: set<string>) returns (id: string)
    requires base in taken && base != "" && IsSlug(base)
    ensures id !in taken && IsSlug(id) && id != ""
    ensures FirstFree(base + "-", 2, taken, id)
  {
    var n := 2;
    while true
      invariant 2 <= n <= |taken| + 1
      invariant forall m: nat :: 2 <= m < n ==> Numbered(base + "-", m) in taken
      decreases |taken| + 1 - n
    {
      id := base + "-" + Itoa(n);
      NumberedIsSlug(base, n);
      if id !in taken {
        assert IsFree(base + "-", 2, taken, n);
        return;
      }
      TriedFits(base, n + 1, taken);
      n := n + 1;
    }
  }

  // All candidates tried so far are different members of `taken`.
  lemma TriedFits(base: string, n: nat, taken: set<string>)
    requires 2 <= n && base in taken
    requires forall m: nat :: 2 <= m < n ==> Numbered(base + "-", m) in taken
    ensures n <= |taken| + 1
  {
    var names := Names(base + "-", 2, n);
    assert base !in names by {
      forall m: nat | 2 <= m < n ensures Numbered(base + "-", m) != base { assert |Numbered(base + "-", m)| > |base|; }
    }
    SubsetSize(names + {base}, taken);
  }

  lemma NumberedIsSlug(base: string, n: nat)
    requires IsSlug(base) && base != ""
    ensures IsSlug(base + "-" + Itoa(n)) && base + "-" + Itoa(n) == Numbered(base + "-", n)
  {
    assert Keeps(base[|base| - 1]);
  }

  // --- block ids ----------------------------------------------------------

  // A block keeps a nonempty id no earlier block has; any other gets the lowest free one.
  ghost predicate Assigned(wanted: string, taken: set<string>, id: string) {
    if wanted != "" && wanted !in taken then id == wanted
    else FirstFree("b", 1, taken, id)
  }

  method NextBlockID(taken: set<string>) returns (id: string)
    ensures Assigned("", taken, id) && id != "" && id !in taken
  {
    var n := 1;
    while true
      invariant 1 <= n <= |taken| + 1
      invariant forall m: nat :: 1 <= m < n ==> Numbered("b", m) in taken
      decreases |taken| + 1 - n
    {
      id := "b" + Itoa(n);
      assert id == Numbered("b", n);
      if id !in taken {
        assert IsFree("b", 1, taken, n);
        return;
      }
      SubsetSize(Names("b", 1, n + 1), taken);
      n := n + 1;
    }
  }

  ghost function IdsBefore(blocks: seq<Block>, n: nat): set<string>
    requires n <= |blocks|
  {
    set i | 0 <= i < n :: blocks[i].id
  }

  ghost predicate DistinctIds(blocks: seq<Block>) {
    && (forall i :: 0 <= i < |blocks| ==> blocks[i].id != "")
    && (forall i, j :: 0 <= i < j < |blocks| ==> blocks[i].id != blocks[j].id)
  }

  /** Afterwards all ids are nonempty and different; only ids have changed: a
      nonempty id that no earlier block holds is kept, any other becomes the
      lowest free one. */
  method NormalizeBlockIDs(blocks: array<Block>)
    modifies blocks
    ensures DistinctIds(blocks[..])
    ensures forall i :: 0 <= i < blocks.Length ==>
      && blocks[i] == old(blocks[i]).(id := blocks[i].id)
      && var wanted, before := old(blocks[i]).id, IdsBefore(blocks[..], i);
         if wanted != "" && wanted !in before then blocks[i].id == wanted else FirstFree("b", 1, before, blocks[i].id)
  {
    hide FirstFree;
    var taken: set<string> := {};
    for i := 0 to blocks.Length
      invariant taken == IdsBefore(blocks[..], i) && DistinctIds(blocks[..i])
      invariant forall k :: i <= k < blocks.Length ==> blocks[k] == old(blocks[k])
      invariant forall k :: 0 <= k < i ==>
        && blocks[k] == old(blocks[k]).(id := blocks[k].id)
        && Assigned(old(blocks[k]).id, IdsBefore(blocks[..], k), blocks[k].id)
    {
      var wanted := blocks[i].id;
      var id := wanted;
      if !(wanted != "" && wanted !in taken) {
        id := NextBlockID(taken);
      }
      ghost var was := blocks[..];
      blocks[i] := blocks[i].(id := id);
      IdsBeforeGrow(was, blocks[..], i);
      taken := taken + {id};
    }
    assert blocks[..blocks.Length] == blocks[..];
  }

  lemma IdsBeforeGrow(a: seq<Block>, b: seq<Block>, i: nat)
    requires i < |a| == |b| && a[..i] == b[..i]
    ensures forall k :: 0 <= k <= i ==> IdsBefore(a, k) == IdsBefore(b, k)
    ensures IdsBefore(b, i + 1) == IdsBefore(b, i) + {b[i].id}
  {
    assert forall k :: 0 <= k < i ==> a[k] == a[..i][k] && b[k] == b[..i][k];
  }
}
