/** The open/closed example of Solid City: a blaster that can only grow by
    editing its own branches (BBlaster), against a composite blaster (Blaster)
    that holds an ordered list of other blasters and fires them in turn.

    Console output is modelled as a trace: every operation that writes lines
    returns them, in order, as a `seq<string>`. */
module OCP {

  const NetLine: string := "Shoots net!"
  const SmokeLine: string := "Shoots smoke!"
  const SparksLine: string := "Shoots sparks!"

  /** The kinds the conditional blaster recognises. */
  const Kinds: set<string> := {"Net", "Smoke", "Sparks"}

  // ---------------------------------------------------------------------------
  // Bad: one operation with a branch per kind

  /** BBlaster.Shoot(type): one line for a recognised kind, nothing otherwise. */
  function ConditionalShoot(kind: string): (r: seq<string>)
    ensures |r| <= 1
    ensures r != [] <==> kind in Kinds
  {
    if kind == "Net" then [NetLine]
    else if kind == "Smoke" then [SmokeLine]
    else if kind == "Sparks" then [SparksLine]
    else []
  }

  /** Different recognised kinds never print the same line. */
  lemma ConditionalShootDistinguishesKinds(k1: string, k2: string)
    requires k1 in Kinds && k2 in Kinds
    ensures ConditionalShoot(k1) == ConditionalShoot(k2) <==> k1 == k2
  {
  }

  // ---------------------------------------------------------------------------
  // Good: leaf blasters and a composite

  /** A leaf blaster. It has no state; only its identity matters. */
  class NetLauncher {
    constructor () {}

    /** Prints exactly the line the conditional blaster prints for "Net". */
    function Shoot(): (r: seq<string>)
      ensures |r| == 1
      ensures r == ConditionalShoot("Net")
    {
      [NetLine]
    }
  }

  /** A leaf blaster. It has no state; only its identity matters. */
  class SmokeBomber {
    constructor () {}

    /** Prints exactly the line the conditional blaster prints for "Smoke". */
    function Shoot(): (r: seq<string>)
      ensures |r| == 1
      ensures r == ConditionalShoot("Smoke")
    {
      [SmokeLine]
    }
  }

  /** A member of a composite blaster: a reference to a leaf. Equality of two
      members is equality of the references, as for C#'s default Equals. */
  datatype Member = Net(launcher: NetLauncher) | Smoke(bomber: SmokeBomber)

  /** The kind name under which the conditional blaster prints the same line. */
  function KindName(m: Member): string
  {
    match m
    case Net(_) => "Net"
    case Smoke(_) => "Smoke"
  }

  /** Calls the member's Shoot (the interface call `blaster.Shoot()`). */
  function Fire(m: Member): (r: seq<string>)
    ensures |r| == 1
  {
    match m
    case Net(n) => n.Shoot()
    case Smoke(s) => s.Shoot()
  }

  /** Every leaf prints what the conditional blaster prints for its kind, and
      its kind is one the conditional blaster recognises. */
  lemma LeafMatchesConditional(m: Member)
    ensures KindName(m) in Kinds
    ensures Fire(m) == ConditionalShoot(KindName(m))
  {
  }

  /** The lines a composite holding `ms` prints: each member's, in list order. */
  function Shots(ms: seq<Member>): (r: seq<string>)
    ensures |r| == |ms|
  {
    if ms == [] then [] else Shots(ms[..|ms| - 1]) + Fire(ms[|ms| - 1])
  }

  /** Line i of the composite's output is the one line of member i. */
  lemma {:induction false} ShotsAt(ms: seq<Member>, i: nat)
    requires i < |ms|
    ensures Shots(ms)[i] == Fire(ms[i])[0]
  {
    if i < |ms| - 1 {
      ShotsAt(ms[..|ms| - 1], i);
    }
  }

  /** The output of a concatenated list is the concatenation of the outputs. */
  lemma {:induction false} ShotsAppend(a: seq<Member>, b: seq<Member>)
    ensures Shots(a + b) == Shots(a) + Shots(b)
  {
    if b == [] {
      assert a + b == a;
    } else {
      var c := a + b;
      assert c[..|c| - 1] == a + b[..|b| - 1];
      ShotsAppend(a, b[..|b| - 1]);
    }
  }

  /** The list that List.Remove leaves: the first occurrence of x taken out. */
  function RemoveFirst(s: seq<Member>, x: Member): (r: seq<Member>)
    ensures x !in s ==> r == s
    ensures x in s ==> |r| == |s| - 1
  {
    if s == [] then []
    else if s[0] == x then s[1..]
    else
      assert x in s ==> x in s[1..] by {
        assert s == [s[0]] + s[1..];
      }
      [s[0]] + RemoveFirst(s[1..], x)
  }

  /** Removal takes exactly one copy of x out of the list's multiset, so a
      member attached twice is still held once after one removal. */
  lemma {:induction false} RemoveFirstMultiset(s: seq<Member>, x: Member)
    ensures multiset(RemoveFirst(s, x)) == multiset(s) - multiset{x}
  {
    if s != [] {
      assert s == [s[0]] + s[1..];
      if s[0] != x {
        RemoveFirstMultiset(s[1..], x);
      }
    }
  }

  /** When x first occurs at index i, removing x drops exactly index i and
      keeps everything else in its order. */
  lemma {:induction false} RemoveFirstAt(s: seq<Member>, x: Member, i: nat)
    requires i < |s| && s[i] == x && x !in s[..i]
    ensures RemoveFirst(s, x) == s[..i] + s[i + 1..]
  {
    if i > 0 {
      var tail := s[1..];
      assert s[0] == s[..i][0];
      assert tail[..i - 1] == s[1..i];
      RemoveFirstAt(tail, x, i - 1);
      assert tail[i..] == s[i + 1..];
      assert RemoveFirst(s, x) == [s[0]] + RemoveFirst(tail, x);
      assert [s[0]] + s[1..i] == s[..i];
    }
  }

  /** Attaching the same member twice and detaching it once leaves one copy. */
  lemma {:induction false} AttachTwiceDetachOnce(s: seq<Member>, b: Member)
    requires b !in s
    ensures RemoveFirst(s + [b] + [b], b) == s + [b]
  {
    var t := s + [b] + [b];
    assert t[..|s|] == s;
    RemoveFirstAt(t, b, |s|);
    assert t[|s| + 1..] == [b];
  }

  /** The composite's output splits around any one member's line. */
  lemma {:induction false} ShotsSplit(s: seq<Member>, i: nat)
    requires i < |s|
    ensures Shots(s) == Shots(s[..i]) + Fire(s[i]) + Shots(s[i + 1..])
  {
    var pre, post := s[..i], s[i + 1..];
    var upto := pre + [s[i]];
    assert upto[..|upto| - 1] == pre;
    assert Shots(upto) == Shots(pre) + Fire(s[i]);
    assert s == upto + post;
    ShotsAppend(upto, post);
  }

  /** After detaching the first occurrence of x (at index i), the composite
      prints what it printed before minus that member's line. */
  lemma {:induction false} DetachThenShots(s: seq<Member>, x: Member, i: nat)
    requires i < |s| && s[i] == x && x !in s[..i]
    ensures Shots(s) == Shots(s[..i]) + Fire(x) + Shots(s[i + 1..])
    ensures Shots(RemoveFirst(s, x)) == Shots(s[..i]) + Shots(s[i + 1..])
  {
    ShotsSplit(s, i);
    RemoveFirstAt(s, x, i);
    ShotsAppend(s[..i], s[i + 1..]);
  }

  /** What the conditional blaster prints when called once per member, with
      the member's kind name, in list order. */
  function KindShots(ms: seq<Member>): seq<string>
  {
    if ms == [] then [] else KindShots(ms[..|ms| - 1]) + ConditionalShoot(KindName(ms[|ms| - 1]))
  }

  /** The composite prints exactly what the conditional blaster prints for
      its members' kinds, in the same order. */
  lemma {:induction false} ShotsMatchConditional(ms: seq<Member>)
    ensures Shots(ms) == KindShots(ms)
  {
    if ms != [] {
      ShotsMatchConditional(ms[..|ms| - 1]);
      LeafMatchesConditional(ms[|ms| - 1]);
    }
  }

  /** No leaf exists for the conditional blaster's "Sparks" branch, so no
      composite ever prints its line. */
  lemma SparksNeverShot(ms: seq<Member>)
    ensures SparksLine !in Shots(ms)
  {
  }

  /** List.IndexOf: the first index of x in s, or -1 when x is absent. */
  method FirstIndex(s: seq<Member>, x: Member) returns (i: int)
    ensures -1 <= i < |s|
    ensures i == -1 <==> x !in s
    ensures 0 <= i ==> s[i] == x && x !in s[..i]
  {
    var j := 0;
    while j < |s|
      invariant 0 <= j <= |s|
      invariant x !in s[..j]
    {
      if s[j] == x {
        return j;
      }
      assert s[..j + 1] == s[..j] + [s[j]];
      j := j + 1;
    }
    assert s[..j] == s;
    i := -1;
  }

  /** The composite blaster: an ordered list of member blasters. */
  class Blaster {
    var blasters: seq<Member>

    constructor ()
      ensures blasters == []
    {
      blasters := [];
    }

    /** Fires every member in list order; the list itself is not touched
        (the method modifies nothing). */
    method Shoot() returns (out: seq<string>)
      ensures out == Shots(blasters)
    {
      out := [];
      var i := 0;
      while i < |blasters|
        invariant 0 <= i <= |blasters|
        invariant out == Shots(blasters[..i])
      {
        assert blasters[..i + 1][..i] == blasters[..i];
        out := out + Fire(blasters[i]);
        i := i + 1;
      }
      assert blasters[..i] == blasters;
    }

    /** Appends b; duplicates are allowed. */
    method Attach(b: Member)
      modifies this
      ensures blasters == old(blasters) + [b]
    {
      blasters := blasters + [b];
    }

    /** Removes the first occurrence of b; does nothing when b is absent. */
    method Detach(b: Member)
      modifies this
      ensures blasters == RemoveFirst(old(blasters), b)
    {
      var i := FirstIndex(blasters, b);
      if 0 <= i {
        RemoveFirstAt(blasters, b, i);
        blasters := blasters[..i] + blasters[i + 1..];
      }
    }
  }

  /** The usage in Program.Main: attach a net launcher and a smoke bomber,
      then shoot. */
  method Usage() returns (out: seq<string>)
    ensures out == [NetLine, SmokeLine]
  {
    var blaster := new Blaster();
    var net := new NetLauncher();
    var smoke := new SmokeBomber();
    blaster.Attach(Net(net));
    blaster.Attach(Smoke(smoke));
    out := blaster.Shoot();
    ShotsAt(blaster.blasters, 0);
    ShotsAt(blaster.blasters, 1);
  }
}
