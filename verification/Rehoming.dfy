/**
 * Where the support files of an extracted part go: the re-homing plan and the exclusive/shared split
 * (packages/evolution-core/src/reference-rewrite.ts, extract-plan.ts).
 */
module Rehoming {
  import Decimal

  datatype Move = Move(from: string, to: string)

  function LastSlash(path: string): (k: int)
    ensures -1 <= k < |path|
  {
    if path == "" then -1 else if path[|path| - 1] == '/' then |path| - 1 else LastSlash(path[..|path| - 1])
  }

  function Dir(path: string): string { path[..LastSlash(path) + 1] }
  function Name(path: string): string { path[LastSlash(path) + 1..] }

  /** The destinations tried in turn for a path the target already has. */
  function Try(path: string, source: string, counter: nat): string
    requires counter >= 1
  {
    if counter == 1 then Dir(path) + source + "-" + Name(path)
    else Dir(path) + source + "-" + Decimal.Write(counter) + "-" + Name(path)
  }

  lemma TryIsLonger(path: string, source: string, counter: nat)
    requires counter >= 1
    ensures |Try(path, source, counter)| > |path|
  {
    assert path == Dir(path) + Name(path);
  }

  lemma TriesDiffer(path: string, source: string, a: nat, b: nat)
    requires 1 <= a < b
    ensures Try(path, source, a) != Try(path, source, b)
  {
    var head, tail := Dir(path) + source + "-", "-" + Name(path);
    if a == 1 {
      assert |Try(path, source, b)| > |Try(path, source, 1)|;
    } else if Try(path, source, a) == Try(path, source, b) {
      var s := Try(path, source, a);
      assert s == head + Decimal.Write(a) + tail && s == head + Decimal.Write(b) + tail;
      assert s[|head|..|s| - |tail|] == Decimal.Write(a);
      assert s[|head|..|s| - |tail|] == Decimal.Write(b);
      Decimal.RoundTrip(a);
      Decimal.RoundTrip(b);
    }
  }

  /** The first destination that is free, from `counter` on. */
  ghost predicate FirstFree(path: string, source: string, taken: set<string>, counter: nat)
  {
    counter >= 1 && Try(path, source, counter) !in taken
    && forall c | 1 <= c < counter :: Try(path, source, c) in taken
  }

  /** The tries before `counter`, all of them taken. */
  ghost predicate Tried(path: string, source: string, taken: set<string>, counter: nat, tried: set<string>)
  {
    && tried <= taken && |tried| == counter - 1
    && (forall t | t in tried :: exists c | 1 <= c < counter :: t == Try(path, source, c))
    && (forall c | 1 <= c < counter :: Try(path, source, c) in tried)
  }

  lemma TryIsNew(path: string, source: string, taken: set<string>, counter: nat, tried: set<string>)
    requires counter >= 1 && Tried(path, source, taken, counter, tried)
    ensures Try(path, source, counter) !in tried
  {
    forall c | 1 <= c < counter ensures Try(path, source, c) != Try(path, source, counter) {
      TriesDiffer(path, source, c, counter);
    }
  }

  lemma TriedGrows(path: string, source: string, taken: set<string>, counter: nat, tried: set<string>, to: string)
    requires counter >= 1 && Tried(path, source, taken, counter, tried)
    requires to == Try(path, source, counter) && to in taken && to !in tried
    ensures Tried(path, source, taken, counter + 1, tried + {to}) && |tried| < |taken|
  {
    SubsetSize(tried + {to}, taken);
    forall c | 1 <= c < counter + 1 ensures Try(path, source, c) in tried + {to} {
    }
  }

  /** The search ends: only as many tries can fail as there are names taken. */
  lemma {:induction false} SomeTryIsFree(path: string, source: string, taken: set<string>, counter: nat, tried: set<string>)
    requires counter >= 1 && Tried(path, source, taken, counter, tried)
    ensures exists c: nat :: FirstFree(path, source, taken, c)
    decreases |taken| - |tried|
  {
    var to := Try(path, source, counter);
    TryIsNew(path, source, taken, counter, tried);
    if to in taken {
      TriedGrows(path, source, taken, counter, tried, to);
      SomeTryIsFree(path, source, taken, counter + 1, tried + {to});
    } else {
      assert FirstFree(path, source, taken, counter);
    }
  }

  /** The first free try: where a path that is taken goes. */
  ghost function Landing(path: string, source: string, taken: set<string>): (to: string)
    ensures to !in taken && |to| > |path|
  {
    SomeTryIsFree(path, source, taken, 1, {});
    var c: nat :| FirstFree(path, source, taken, c);
    TryIsLonger(path, source, c);
    Try(path, source, c)
  }

  lemma LandingIs(path: string, source: string, taken: set<string>) returns (c: nat)
    ensures FirstFree(path, source, taken, c) && Landing(path, source, taken) == Try(path, source, c)
  {
    SomeTryIsFree(path, source, taken, 1, {});
    c :| FirstFree(path, source, taken, c);
    FirstIsOne(path, source, taken, c);
  }

  lemma FirstIsOne(path: string, source: string, taken: set<string>, a: nat)
    requires FirstFree(path, source, taken, a)
    ensures forall b: nat | FirstFree(path, source, taken, b) :: b == a
  {
  }

  method Free(path: string, source: string, taken: set<string>) returns (to: string)
    ensures to == Landing(path, source, taken)
  {
    ghost var last := LandingIs(path, source, taken);
    ghost var current := 1;
    to := Try(path, source, 1);
    var counter := 2;
    while to in taken
      invariant 1 <= current <= last && counter == current + 1 && to == Try(path, source, current)
      decreases last - current
    {
      to := Try(path, source, counter);
      current, counter := counter, counter + 1;
    }
  }

  lemma SubsetSize<T>(a: set<T>, b: set<T>)
    requires a <= b
    ensures |a| <= |b|
  {
    assert b == a + (b - a);
  }

  // ----- the plan ------------------------------------------------------------------------

  /** The names the target and the first `k` files have claimed. A path nobody has keeps it WITHOUT claiming it; any
      other goes to its first free try and claims that. */
  ghost function Claimed(files: seq<string>, target: set<string>, source: string, k: nat): set<string>
    requires k <= |files|
  {
    if k == 0 then target
    else
      var before := Claimed(files, target, source, k - 1);
      if files[k - 1] in before then before + {Landing(files[k - 1], source, before)} else before
  }

  ghost predicate IsRenamed(files: seq<string>, target: set<string>, source: string, k: nat)
    requires k < |files|
  {
    files[k] in Claimed(files, target, source, k)
  }

  ghost function Destination(files: seq<string>, target: set<string>, source: string, k: nat): string
    requires k < |files|
  {
    if IsRenamed(files, target, source, k) then Landing(files[k], source, Claimed(files, target, source, k)) else files[k]
  }

  lemma {:induction false} ClaimsGrow(files: seq<string>, target: set<string>, source: string, i: nat, j: nat)
    requires i <= j <= |files|
    ensures Claimed(files, target, source, i) <= Claimed(files, target, source, j)
  {
    if i < j { ClaimsGrow(files, target, source, i, j - 1); }
  }

  /** Every destination is new to the target, and a file is renamed exactly when it would not be. */
  lemma DestinationIsNew(files: seq<string>, target: set<string>, source: string, k: nat)
    requires k < |files|
    ensures Destination(files, target, source, k) !in target
    ensures Destination(files, target, source, k) != files[k] <==> IsRenamed(files, target, source, k)
    ensures files[k] in target ==> IsRenamed(files, target, source, k)
  {
    ClaimsGrow(files, target, source, 0, k);
  }

  /** Two distinct files share a destination if and only if the earlier one keeps its path and the later one is
      renamed with that very path as its first free try. */
  lemma DestinationsMeetIff(files: seq<string>, target: set<string>, source: string, i: nat, j: nat)
    requires i < j < |files| && files[i] != files[j]
    ensures Destination(files, target, source, i) == Destination(files, target, source, j) <==>
            && files[i] !in Claimed(files, target, source, i)
            && files[j] in Claimed(files, target, source, j)
            && files[i] == Landing(files[j], source, Claimed(files, target, source, j))
  {
    if IsRenamed(files, target, source, i) {
      ClaimsGrow(files, target, source, i + 1, j);
      assert Destination(files, target, source, i) in Claimed(files, target, source, i + 1);
      if !IsRenamed(files, target, source, j) { assert files[j] !in Claimed(files, target, source, j); }
    }
  }

  /** Distinct files get distinct destinations if and only if no file is renamed onto the path of an earlier file that
      kept it. */
  lemma DistinctDestinationsIff(files: seq<string>, target: set<string>, source: string)
    ensures (forall i, j | 0 <= i < j < |files| && files[i] != files[j] ::
               Destination(files, target, source, i) != Destination(files, target, source, j))
       <==> !(exists i, j | 0 <= i < j < |files| ::
               && files[i] !in Claimed(files, target, source, i)
               && files[j] in Claimed(files, target, source, j)
               && files[i] == Landing(files[j], source, Claimed(files, target, source, j)))
  {
    forall i, j | 0 <= i < j < |files|
      ensures files[i] != files[j] && Destination(files, target, source, i) == Destination(files, target, source, j) <==>
            && files[i] !in Claimed(files, target, source, i)
            && files[j] in Claimed(files, target, source, j)
            && files[i] == Landing(files[j], source, Claimed(files, target, source, j))
    {
      if files[i] != files[j] { DestinationsMeetIff(files, target, source, i, j); }
    }
  }

  /** In particular when no file's own path is a name tried for another. */
  lemma DistinctDestinations(files: seq<string>, target: set<string>, source: string, i: nat, j: nat)
    requires i < j < |files| && files[i] != files[j]
    requires forall counter: nat | counter >= 1 :: files[i] != Try(files[j], source, counter)
    ensures Destination(files, target, source, i) != Destination(files, target, source, j)
  {
    DestinationsMeetIff(files, target, source, i, j);
    var c := LandingIs(files[j], source, Claimed(files, target, source, j));
  }

  /** The files that are renamed among the first `k`, in order. */
  ghost function RenamedPaths(files: seq<string>, target: set<string>, source: string, k: nat): seq<string>
    requires k <= |files|
  {
    if k == 0 then []
    else RenamedPaths(files, target, source, k - 1) + if IsRenamed(files, target, source, k - 1) then [files[k - 1]] else []
  }

  ghost predicate Planned(files: seq<string>, target: set<string>, source: string, moves: seq<Move>)
    requires |moves| <= |files|
  {
    forall i | 0 <= i < |moves| :: moves[i] == Move(files[i], Destination(files, target, source, i))
  }

  /** The move of one file, and what is claimed after it. */
  lemma Step(files: seq<string>, target: set<string>, source: string, k: nat)
    requires k < |files|
    ensures var before, to := Claimed(files, target, source, k), Destination(files, target, source, k);
            && (to == if files[k] in before then Landing(files[k], source, before) else files[k])
            && Claimed(files, target, source, k + 1) == (if files[k] in before then before + {to} else before)
            && RenamedPaths(files, target, source, k + 1)
               == RenamedPaths(files, target, source, k) + (if files[k] in before then [files[k]] else [])
  {
  }

  method PlanRehoming(files: seq<string>, target: set<string>, source: string)
    returns (moves: seq<Move>, collisions: seq<string>)
    ensures |moves| == |files| && Planned(files, target, source, moves)
    ensures collisions == RenamedPaths(files, target, source, |files|)
  {
    moves, collisions := [], [];
    var taken := target;
    for k := 0 to |files|
      invariant |moves| == k && Planned(files, target, source, moves) && taken == Claimed(files, target, source, k)
      invariant collisions == RenamedPaths(files, target, source, k)
    {
      Step(files, target, source, k);
      var path := files[k];
      if path !in taken {
        moves := moves + [Move(path, path)];
      } else {
        collisions := collisions + [path];
        var to := Free(path, source, taken);
        taken := taken + {to};
        moves := moves + [Move(path, to)];
      }
    }
  }

  // ----- a file lost on the way --------------------------------------------------------------

  lemma SlashAt(dir: string, name: string)
    requires dir != "" && dir[|dir| - 1] == '/' && name != "" && name[0] != '/' && |name| == 1
    ensures Dir(dir + name) == dir && Name(dir + name) == name
  {
    var path := dir + name;
    assert path[..|path| - 1] == dir;
    assert path[|path| - 1] == name[0];
    assert LastSlash(path) == LastSlash(dir) == |dir| - 1;
  }

  /** Two source files, one destination: a file that stays in place does not claim its own path, so the next file's
      new name can land on it. */
  lemma TwoFilesOneDestination()
    ensures var files, target := ["references/s-a", "references/a"], {"references/a"};
            Destination(files, target, "s", 0) == Destination(files, target, "s", 1) == "references/s-a"
  {
    var files, target := ["references/s-a", "references/a"], {"references/a"};
    SlashAt("references/", "a");
    assert "references/" + "a" == files[1] && |files[0]| != |files[1]|;
    assert Claimed(files, target, "s", 1) == Claimed(files, target, "s", 0) == target;
    assert Try(files[1], "s", 1) == files[0];
    assert FirstFree(files[1], "s", target, 1);
    var c := LandingIs(files[1], "s", target);
    FirstIsOne(files[1], "s", target, 1);
  }

  // ----- what the parent still needs ------------------------------------------------------------

  /** The refusal the plan ends with: residual citations of exclusive files. */
  function ParentExclusive(refs: seq<string>, exclusive: seq<Move>): seq<string>
  {
    if refs == [] then []
    else
      ParentExclusive(refs[..|refs| - 1], exclusive)
      + if exists m | m in exclusive :: m.from == refs[|refs| - 1] then [refs[|refs| - 1]] else []
  }

  lemma {:induction false} NoParentExclusive(refs: seq<string>, exclusive: seq<Move>)
    requires forall m | m in exclusive :: m.from !in refs
    ensures ParentExclusive(refs, exclusive) == []
  {
    if refs != [] {
      assert refs[|refs| - 1] in refs;
      NoParentExclusive(refs[..|refs| - 1], exclusive);
    }
  }

  /** A moved support file is shared when the residual still cites it and exclusive otherwise: each goes to exactly
      one of the two lists, in order, and the refusal for an exclusive file the parent cites can never be given. */
  method SplitSupport(moves: seq<Move>, residualRefs: seq<string>) returns (exclusive: seq<Move>, shared: seq<Move>, refused: bool)
    ensures multiset(exclusive) + multiset(shared) == multiset(moves)
    ensures forall m | m in exclusive :: m.from !in residualRefs
    ensures forall m | m in shared :: m.from in residualRefs
    ensures !refused
  {
    exclusive, shared := [], [];
    for k := 0 to |moves|
      invariant multiset(exclusive) + multiset(shared) == multiset(moves[..k])
      invariant forall m | m in exclusive :: m.from !in residualRefs
      invariant forall m | m in shared :: m.from in residualRefs
    {
      assert moves[..k + 1] == moves[..k] + [moves[k]];
      if moves[k].from in residualRefs {
        shared := shared + [moves[k]];
      } else {
        exclusive := exclusive + [moves[k]];
      }
    }
    assert moves[..|moves|] == moves;
    NoParentExclusive(residualRefs, exclusive);
    refused := ParentExclusive(residualRefs, exclusive) != [];
  }
}
