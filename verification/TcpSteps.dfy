/**
 The connect and accept hooks of ebpf/tcp-link-trace.c at the steps of the get-or-init helper that
 they call (ebpf/headers/bpf/map_helpers.h): a look-up, and an update with BPF_ANY if it found nothing.
 Neither hook holds the socket lock, so another hook on the same socket may come in between. The
 theorem says exactly when the entry still is what module TcpLink makes of one-step hooks.
 */
module TcpSteps {
  import opened Common
  import opened TcpLink

  type HookId = nat

  // A step on one socket's entry. `fits` is the outcome of an insertion; the other hooks are one step.
  datatype Fine = Look(h: HookId, role: Role) | Store(h: HookId, fits: bool) | Whole(l: Local)

  // The entry, and the hooks that have looked it up, found nothing and not yet stored their role.
  datatype View = View(entry: Option<Role>, missed: map<HookId, Role>)

  function Step(v: View, x: Fine): View {
    match x
    case Look(h, role) => if v.entry.Some? || h in v.missed then v else v.(missed := v.missed[h := role])
    case Store(h, fits) =>
      if h !in v.missed then v
      else View(if v.entry.Some? || fits then Some(v.missed[h]) else None, v.missed - {h})
    case Whole(l) => v.(entry := RoleAfter(v.entry, l))
  }

  function Run(v: View, xs: seq<Fine>): View
    decreases xs
  {
    if xs == [] then v else Run(Step(v, xs[0]), xs[1..])
  }

  // What the step is when hooks are one step: a hook counts where it finds an entry, and otherwise
  // where it stores.
  function Coarse(v: View, x: Fine): seq<Local> {
    match x
    case Look(_, role) => if v.entry.Some? then [Init(role, true)] else []
    case Store(h, fits) => if h in v.missed then [Init(v.missed[h], fits)] else []
    case Whole(l) => [l]
  }

  function CoarseRun(v: View, xs: seq<Fine>): seq<Local>
    decreases xs
  {
    if xs == [] then [] else Coarse(v, xs[0]) + CoarseRun(Step(v, xs[0]), xs[1..])
  }

  // A store that comes when the socket has got another role in between.
  predicate Replaces(v: View, x: Fine) {
    x.Store? && x.h in v.missed && v.entry.Some? && v.entry != Some(v.missed[x.h])
  }

  ghost predicate SomeReplaces(v: View, xs: seq<Fine>)
    decreases xs
  {
    xs != [] && (Replaces(v, xs[0]) || SomeReplaces(Step(v, xs[0]), xs[1..]))
  }

  lemma OneStep(v: View, x: Fine)
    ensures Step(v, x).entry == Fold(v.entry, Coarse(v, x)) <==> !Replaces(v, x)
  {
    var ls := Coarse(v, x);
    if ls != [] {
      assert ls[1..] == [];
      assert Fold(v.entry, ls) == RoleAfter(v.entry, ls[0]);
    }
  }

  ghost predicate AlikeAt(v: View, xs: seq<Fine>, n: int) {
    0 <= n <= |xs| ==> Run(v, xs[..n]).entry == Fold(v.entry, CoarseRun(v, xs[..n]))
  }

  lemma Unfold(v: View, xs: seq<Fine>, n: nat)
    requires xs != [] && 1 <= n <= |xs|
    ensures
      var next := Step(v, xs[0]);
      && Run(v, xs[..n]) == Run(next, xs[1..][..n - 1])
      && CoarseRun(v, xs[..n]) == Coarse(v, xs[0]) + CoarseRun(next, xs[1..][..n - 1])
  {
    assert xs[..n][1..] == xs[1..][..n - 1];
  }

  // All along a run the entry is what one-step hooks make of it, exactly if no hook stores its role
  // after the socket has got another one.
  lemma {:induction false} StepsRefineHooksUnlessReplaced(v: View, xs: seq<Fine>)
    ensures (forall n :: AlikeAt(v, xs, n)) <==> !SomeReplaces(v, xs)
    decreases xs
  {
    if xs != [] {
      var next, c := Step(v, xs[0]), Coarse(v, xs[0]);
      OneStep(v, xs[0]);
      StepsRefineHooksUnlessReplaced(next, xs[1..]);
      Unfold(v, xs, 1);
      assert xs[1..][..0] == [] && c + [] == c;
      assert AlikeAt(v, xs, 1) <==> !Replaces(v, xs[0]);
      forall n | 1 <= n <= |xs| && !Replaces(v, xs[0])
        ensures AlikeAt(v, xs, n) <==> AlikeAt(next, xs[1..], n - 1)
      {
        Unfold(v, xs, n);
        FoldAppend(v.entry, c, CoarseRun(next, xs[1..][..n - 1]));
      }
      hide Step, Coarse, Replaces, Fold;
      if forall n :: AlikeAt(v, xs, n) {
        forall n
          ensures AlikeAt(next, xs[1..], n)
        {
          assert AlikeAt(v, xs, n + 1);
        }
      }
      if !SomeReplaces(v, xs) {
        forall n
          ensures AlikeAt(v, xs, n)
        {
          if 1 <= n <= |xs| {
            assert AlikeAt(next, xs[1..], n - 1);
          } else if n == 0 {
            assert xs[..0] == [];
            FoldOfNothing(v.entry);
          }
        }
      }
    }
  }

  lemma FoldOfNothing(role: Option<Role>)
    ensures Fold(role, []) == role
  {
  }

  // So within a lifetime, without such a store, the entry is the last handshake decision, or the
  // first hook's role, at every moment.
  lemma RoleWithinLifeAtSteps(xs: seq<Fine>, n: nat)
    requires n <= |xs| && !SomeReplaces(View(None, map[]), xs)
    requires Life(CoarseRun(View(None, map[]), xs[..n]))
    ensures
      var ls := CoarseRun(View(None, map[]), xs[..n]);
      Run(View(None, map[]), xs[..n]).entry
        == if ls == [] then None
           else if LastDecision(ls).Some? then LastDecision(ls)
           else Some(FirstRole(ls[0]))
  {
    StepsRefineHooksUnlessReplaced(View(None, map[]), xs);
    assert AlikeAt(View(None, map[]), xs, n);
    RoleWithinLife(CoarseRun(View(None, map[]), xs[..n]));
  }

  // A connect hook that has looked up, and is overtaken by the establishment of the socket as a
  // server, replaces the decided role.
  lemma OvertakenHookReplaces()
    ensures
      var move := Move(SYN_RECV, ESTABLISHED, true);
      Run(View(None, map[]), [Look(0, Client), Whole(move), Store(0, true)]).entry == Some(Client)
    ensures Fold(None, [Move(SYN_RECV, ESTABLISHED, true), Init(Client, true)]) == Some(Server)
  {
    var move := Move(SYN_RECV, ESTABLISHED, true);
    var v0 := View(None, map[]);
    var xs := [Look(0, Client), Whole(move), Store(0, true)];
    var v1 := Step(v0, xs[0]);
    var v2 := Step(v1, xs[1]);
    var v3 := Step(v2, xs[2]);
    assert v1.missed == map[0 := Client] && v2.entry == Some(Server) && v3.entry == Some(Client);
    RunAppend(v0, [xs[0]], [xs[1], xs[2]]);
    RunAppend(v1, [xs[1]], [xs[2]]);
    assert xs == [xs[0]] + [xs[1], xs[2]] && [xs[1], xs[2]] == [xs[1]] + [xs[2]];
    assert [xs[0]][1..] == [] && [xs[1]][1..] == [] && [xs[2]][1..] == [];
    assert Run(v0, [xs[0]]) == v1 && Run(v1, [xs[1]]) == v2 && Run(v2, [xs[2]]) == v3;
    var init := Init(Client, true);
    FoldAppend(None, [move], [init]);
    assert [move, init] == [move] + [init] && [move][1..] == [] && [init][1..] == [];
    assert Fold(None, [move]) == RoleAfter(None, move) == Some(Server);
    assert Fold(Some(Server), [init]) == RoleAfter(Some(Server), init);
  }

  lemma {:induction false} RunAppend(v: View, a: seq<Fine>, b: seq<Fine>)
    ensures Run(v, a + b) == Run(Run(v, a), b)
    decreases a
  {
    if a == [] {
      assert a + b == b;
    } else {
      assert (a + b)[1..] == a[1..] + b;
      RunAppend(Step(v, a[0]), a[1..], b);
    }
  }
}
