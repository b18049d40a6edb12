/** Matching the ports an AFU requires against the ports a platform offers
    (afu_platform_config.py, matchAfuPorts). */
module PortMatch {
  import opened Wrappers
  import opened Entries

  /** A satisfied requirement: the AFU port, the offering stored under its
      key and, for a vector pair, the chosen `num-entries`. */
  datatype Match = Match(afu: Port, plat: Port, numEntries: Option<Limit>)

  /** The platform's offered ports, keyed by `class/interface`. */
  type Offering = map<string, Port>

  /** The compound lookup key `class + '/' + interface`. */
  function PortKey(p: Port): string
  {
    p.cls + "/" + p.ifc
  }

  predicate IsOffered(p: Port, offered: Offering)
  {
    PortKey(p) in offered
  }

  /** One AFU port against the offering: `None` when an optional port is not
      offered, a match when the shapes agree and a size can be chosen. */
  function MatchPort(p: Port, offered: Offering): (r: Result<Option<Match>, MatchError>)
    ensures r == Success(None) <==> !IsOffered(p, offered) && p.optional
    ensures r == Failure(Unsatisfied(p.cls, p.ifc)) <==> !IsOffered(p, offered) && !p.optional
    ensures IsOffered(p, offered) && p.vector != offered[PortKey(p)].vector ==>
      r == Failure(if p.vector then VectorExpected(p.cls, p.ifc) else ScalarExpected(p.cls, p.ifc))
    ensures r.Success? && r.value.Some? ==>
      && IsOffered(p, offered)
      && r.value.value.afu == p
      && r.value.value.plat == offered[PortKey(p)]
      && p.vector == r.value.value.plat.vector
      && (r.value.value.numEntries.Some? <==> p.vector)
    ensures r.Success? && r.value.Some? && p.vector ==>
      && Within(r.value.value.numEntries.value, p.minEntries, p.maxEntries)
      && !Below(r.value.value.numEntries.value, offered[PortKey(p)].minEntries)
    ensures IsOffered(p, offered) ==> (r.Success? ==> r.value.Some?)
    ensures IsOffered(p, offered) && !p.vector && !offered[PortKey(p)].vector ==>
      r == Success(Some(Match(p, offered[PortKey(p)], None)))
    ensures IsOffered(p, offered) && p.vector && offered[PortKey(p)].vector ==>
      && var q := offered[PortKey(p)];
      && (r.Success? <==> ResolveEntries(p, q).Success?)
      && (r.Success? ==> r.value == Some(Match(p, q, Some(ResolveEntries(p, q).value))))
      && (r.Failure? ==> r.error == ResolveEntries(p, q).error)
  {
    var key := PortKey(p);
    if key !in offered then
      if p.optional then Success(None) else Failure(Unsatisfied(p.cls, p.ifc))
    else
      var q := offered[key];
      if !p.vector && !q.vector then Success(Some(Match(p, q, None)))
      else if p.vector && !q.vector then Failure(VectorExpected(p.cls, p.ifc))
      else if !p.vector && q.vector then Failure(ScalarExpected(p.cls, p.ifc))
      else
        var n :- ResolveEntries(p, q);
        Success(Some(Match(p, q, Some(n))))
  }

  /** The AFU ports, in order, for which the platform has an offering. */
  function OfferedPorts(ports: seq<Port>, offered: Offering): (qs: seq<Port>)
    ensures |qs| <= |ports|
    ensures forall i :: 0 <= i < |qs| ==> qs[i] in ports && IsOffered(qs[i], offered)
    ensures forall i :: 0 <= i < |ports| && IsOffered(ports[i], offered) ==> ports[i] in qs
    decreases |ports|
  {
    if |ports| == 0 then []
    else if IsOffered(ports[0], offered) then [ports[0]] + OfferedPorts(ports[1..], offered)
    else OfferedPorts(ports[1..], offered)
  }

  /** Offered ports keep their relative order: filtering `a + b` is
      filtering `a`, then `b`. */
  lemma {:induction false} OfferedPortsAppend(a: seq<Port>, b: seq<Port>, offered: Offering)
    ensures OfferedPorts(a + b, offered) == OfferedPorts(a, offered) + OfferedPorts(b, offered)
    decreases |a|
  {
    if |a| == 0 {
      assert a + b == b;
    } else {
      assert (a + b)[0] == a[0];
      assert (a + b)[1..] == a[1..] + b;
      OfferedPortsAppend(a[1..], b, offered);
    }
  }

  /** What matching `ports` in turn promises of its result `r`: success
      exactly when every port matches; on success one match per offered AFU
      port, in order, each built from exactly the offering stored under that
      port's key; on failure the error of the first port that fails. */
  predicate MatchesInTurn(ports: seq<Port>, offered: Offering, r: Result<seq<Match>, MatchError>)
  {
    && (r.Success? <==> forall i :: 0 <= i < |ports| ==> MatchPort(ports[i], offered).Success?)
    && (r.Success? ==> |r.value| == |OfferedPorts(ports, offered)| <= |ports|)
    && (r.Success? ==> forall i :: 0 <= i < |r.value| ==>
         && r.value[i].afu == OfferedPorts(ports, offered)[i]
         && MatchPort(r.value[i].afu, offered) == Success(Some(r.value[i])))
    && (r.Failure? ==> exists i :: 0 <= i < |ports| && MatchPort(ports[i], offered) == Failure(r.error) &&
                                   forall j :: 0 <= j < i ==> MatchPort(ports[j], offered).Success?)
  }

  /** The first port matches and the rest fail: the failure is the rest's. */
  lemma RestFails(ports: seq<Port>, offered: Offering, rest: Result<seq<Match>, MatchError>)
    requires |ports| > 0 && MatchPort(ports[0], offered).Success?
    requires rest.Failure? && MatchesInTurn(ports[1..], offered, rest)
    ensures MatchesInTurn(ports, offered, Failure(rest.error))
  {
    var k :| 0 <= k < |ports[1..]| && MatchPort(ports[1..][k], offered) == Failure(rest.error)
      && forall j :: 0 <= j < k ==> MatchPort(ports[1..][j], offered).Success?;
    assert MatchPort(ports[k + 1], offered) == Failure(rest.error);
    forall j | 0 <= j < k + 1
      ensures MatchPort(ports[j], offered).Success?
    {
      if j > 0 {
        assert ports[j] == ports[1..][j - 1];
      }
    }
  }

  /** Every port of `ports` matches when the first and all the rest do. */
  lemma AllMatch(ports: seq<Port>, offered: Offering)
    requires |ports| > 0 && MatchPort(ports[0], offered).Success?
    requires forall i :: 0 <= i < |ports[1..]| ==> MatchPort(ports[1..][i], offered).Success?
    ensures forall i :: 0 <= i < |ports| ==> MatchPort(ports[i], offered).Success?
  {
    forall i | 0 <= i < |ports|
      ensures MatchPort(ports[i], offered).Success?
    {
      if i > 0 {
        assert ports[i] == ports[1..][i - 1];
      }
    }
  }

  /** The first port is offered and matches, and the rest match: its match
      is put in front of the rest's. */
  lemma RestMatchesAfterMatch(ports: seq<Port>, offered: Offering, rest: Result<seq<Match>, MatchError>)
    requires |ports| > 0 && MatchPort(ports[0], offered).Success?
    requires MatchPort(ports[0], offered).value.Some?
    requires rest.Success? && MatchesInTurn(ports[1..], offered, rest)
    ensures MatchesInTurn(ports, offered, Success([MatchPort(ports[0], offered).value.value] + rest.value))
  {
    AllMatch(ports, offered);
    var m := MatchPort(ports[0], offered).value.value;
    var ms := [m] + rest.value;
    var qs := OfferedPorts(ports, offered);
    assert qs == [ports[0]] + OfferedPorts(ports[1..], offered);
    forall i | 0 <= i < |ms|
      ensures ms[i].afu == qs[i] && MatchPort(ms[i].afu, offered) == Success(Some(ms[i]))
    {
      if i > 0 {
        assert ms[i] == rest.value[i - 1];
        assert qs[i] == OfferedPorts(ports[1..], offered)[i - 1];
      }
    }
  }

  /** The first port is optional and not offered, and the rest match: the
      result is the rest's. */
  lemma RestMatchesAfterSkip(ports: seq<Port>, offered: Offering, rest: Result<seq<Match>, MatchError>)
    requires |ports| > 0 && MatchPort(ports[0], offered) == Success(None)
    requires rest.Success? && MatchesInTurn(ports[1..], offered, rest)
    ensures MatchesInTurn(ports, offered, rest)
  {
    AllMatch(ports, offered);
    assert OfferedPorts(ports, offered) == OfferedPorts(ports[1..], offered);
  }

  /** All AFU ports in turn, stopping at the first that cannot be matched.
      On success there is one match per offered AFU port, in order, each
      built from exactly the offering stored under that port's key; on
      failure the error is that of the first port that fails. */
  function MatchAll(ports: seq<Port>, offered: Offering): (r: Result<seq<Match>, MatchError>)
    ensures r.Success? <==> forall i :: 0 <= i < |ports| ==> MatchPort(ports[i], offered).Success?
    ensures r.Success? ==> |r.value| == |OfferedPorts(ports, offered)| <= |ports|
    ensures r.Success? ==> forall i :: 0 <= i < |r.value| ==>
      && r.value[i].afu == OfferedPorts(ports, offered)[i]
      && MatchPort(r.value[i].afu, offered) == Success(Some(r.value[i]))
    ensures r.Failure? ==> exists i :: 0 <= i < |ports| && MatchPort(ports[i], offered) == Failure(r.error) &&
                                       forall j :: 0 <= j < i ==> MatchPort(ports[j], offered).Success?
    decreases |ports|
  {
    if |ports| == 0 then Success([])
    else
      var first := MatchPort(ports[0], offered);
      if first.Failure? then
        assert MatchPort(ports[0], offered) == Failure(first.error);
        Failure(first.error)
      else
        var rest := MatchAll(ports[1..], offered);
        assert MatchesInTurn(ports[1..], offered, rest);
        if rest.Failure? then
          RestFails(ports, offered, rest);
          Failure(rest.error)
        else
          if first.value.Some? then
            RestMatchesAfterMatch(ports, offered, rest);
            Success([first.value.value] + rest.value)
          else
            RestMatchesAfterSkip(ports, offered, rest);
            Success(rest.value)
  }

  /** Matching is per port and never rolls back: matching `a + b` is
      matching `a`, then `b`, and concatenating the results. */
  lemma {:induction false} MatchAllAppend(a: seq<Port>, b: seq<Port>, offered: Offering)
    ensures MatchAll(a + b, offered) ==
      match MatchAll(a, offered)
      case Failure(e) => Failure(e)
      case Success(ma) =>
        match MatchAll(b, offered)
        case Failure(e) => Failure(e)
        case Success(mb) => Success(ma + mb)
    decreases |a|
  {
    if |a| == 0 {
      assert a + b == b;
      assert MatchAll(a, offered) == Success([]);
      if MatchAll(b, offered).Success? {
        assert [] + MatchAll(b, offered).value == MatchAll(b, offered).value;
      }
    } else {
      assert (a + b)[0] == a[0];
      assert (a + b)[1..] == a[1..] + b;
      MatchAllAppend(a[1..], b, offered);
      var first := MatchPort(a[0], offered);
      if first.Success? && first.value.Some? {
        match MatchAll(a[1..], offered)
        case Failure(_) =>
        case Success(ma) =>
          match MatchAll(b, offered)
          case Failure(_) =>
          case Success(mb) =>
            assert [first.value.value] + (ma + mb) == ([first.value.value] + ma) + mb;
      }
    }
  }

  /** An optional port the platform does not offer produces no match and no
      error. */
  lemma OptionalMissingExample()
    ensures MatchAll([Port("pwr", "std", false, true, 0, Unbounded, None)], map[]) == Success([])
  {
    assert MatchPort(Port("pwr", "std", false, true, 0, Unbounded, None), map[]) == Success(None);
  }

  /** A scalar requirement against a vector offering fails with a shape mismatch. */
  lemma ScalarAgainstVectorExample()
    ensures MatchAll(
      [Port("clk", "std", false, false, 1, Unbounded, None)],
      map["clk/std" := Port("clk", "std", true, false, 1, Finite(4), None)])
      == Failure(ScalarExpected("clk", "std"))
  {
    var p := Port("clk", "std", false, false, 1, Unbounded, None);
    assert PortKey(p) == "clk/std";
  }

  /** Class "a/b" with interface "c" and class "a" with interface "b/c"
      share the lookup key "a/b/c". */
  lemma PortKeyCollision()
    ensures PortKey(Port("a/b", "c", false, false, 0, Unbounded, None))
         == PortKey(Port("a", "b/c", false, false, 0, Unbounded, None))
  {
  }

  /** Position of the first '/' in `s`, or `|s|` when there is none. */
  function SlashIndex(s: string): (i: nat)
    ensures i <= |s|
    decreases |s|
  {
    if |s| == 0 || s[0] == '/' then 0 else 1 + SlashIndex(s[1..])
  }

  lemma {:induction false} KeySlashIndex(p: Port)
    requires '/' !in p.cls
    ensures SlashIndex(PortKey(p)) == |p.cls|
    decreases |p.cls|
  {
    if |p.cls| > 0 {
      var p' := p.(cls := p.cls[1..]);
      KeySlashIndex(p');
      assert PortKey(p)[1..] == PortKey(p');
    }
  }

  /** Without '/' in class names the lookup key identifies the (class,
      interface) pair. */
  lemma PortKeyInjective(p: Port, q: Port)
    requires '/' !in p.cls && '/' !in q.cls
    requires PortKey(p) == PortKey(q)
    ensures p.cls == q.cls && p.ifc == q.ifc
  {
    var k := PortKey(p);
    KeySlashIndex(p);
    KeySlashIndex(q);
    assert p.cls == k[..|p.cls|] == q.cls;
    assert p.ifc == k[|p.cls| + 1..] == q.ifc;
  }
}
