/**
 Dials set for one variant and set back afterwards (ExperimentClient.dial_state in
 clozn/experiments/suite.py). What becomes of each request is a parameter.
 */
module DialState {

  type Dials = map<string, real>

  /** Answered, or failed with an exception, and then whether the gateway got it. */
  datatype Request = Answered | Failed(arrived: bool)

  predicate Arrives(r: Request) {
    r.Answered? || r.arrived
  }

  /** The values of the dials that the gateway lists. */
  function Listed(dials: Dials, axes: seq<string>): Dials {
    map name | name in dials && name in axes :: dials[name]
  }

  function Wanted(desired: Dials, name: string): real {
    if name in desired then desired[name] else 0.0
  }

  /** The dials as the body of the context finds them. */
  function AtYield(before: Dials, axes: seq<string>, desired: Dials): Dials {
    map name | name in before :: if name in axes then Wanted(desired, name) else before[name]
  }

  class Gateway {
    var dials: Dials

    constructor (dials: Dials)
      ensures this.dials == dials
    {
      this.dials := dials;
    }

    /** POST /steer/set; a request that raises an exception may have set the dial all the same. */
    method Set(name: string, value: real, request: Request)
      modifies this
      ensures dials == if Arrives(request) then old(dials)[name := value] else old(dials)
    {
      if Arrives(request) {
        dials := dials[name := value];
      }
    }

    /** The finally clause: a request that fails is passed over. */
    method Restore(axes: seq<string>, prior: Dials, restore: string -> Request)
      requires forall name :: name in axes ==> name in prior
      requires prior.Keys <= dials.Keys
      modifies this
      ensures dials.Keys == old(dials.Keys)
      ensures forall name :: name in dials ==>
        dials[name] == if name in axes && Arrives(restore(name)) then prior[name] else old(dials)[name]
    {
      for k := 0 to |axes|
        invariant dials.Keys == old(dials.Keys)
        invariant forall name :: name in dials ==>
          dials[name] == if name in axes[..k] && Arrives(restore(name)) then prior[name] else old(dials)[name]
      {
        assert axes[k] in axes && axes[..k + 1] == axes[..k] + [axes[k]];
        Set(axes[k], prior[axes[k]], restore(axes[k]));
      }
      assert axes[..|axes|] == axes;
    }

    /** Up to the yield; without it the context is left with an exception. */
    method Enter(axes: seq<string>, desired: Dials, requests: nat -> Request, restore: string -> Request)
      returns (ok: bool, prior: Dials)
      requires forall name :: name in axes ==> name in dials
      modifies this
      ensures prior == Listed(old(dials), axes) && dials.Keys == old(dials.Keys)
      ensures ok <==> desired.Keys <= prior.Keys && forall k: nat :: k < |axes| ==> requests(k) == Answered
      ensures ok ==> forall name :: name in prior ==> dials[name] == Wanted(desired, name)
      ensures forall name :: name in dials && name !in axes ==> dials[name] == old(dials)[name]
      ensures !ok ==> forall name :: name in dials && Arrives(restore(name)) ==> dials[name] == old(dials)[name]
      ensures !(desired.Keys <= prior.Keys) ==> dials == old(dials)
    {
      prior := Listed(dials, axes);
      if !(desired.Keys <= prior.Keys) {
        return false, prior;
      }
      for k := 0 to |axes|
        invariant dials.Keys == old(dials.Keys)
        invariant forall j: nat :: j < k ==> requests(j) == Answered
        invariant forall name :: name in dials ==>
          dials[name] == if name in axes[..k] then Wanted(desired, name) else old(dials)[name]
      {
        assert axes[k] in axes && axes[..k + 1] == axes[..k] + [axes[k]];
        Set(axes[k], Wanted(desired, axes[k]), requests(k));
        if requests(k) != Answered {
          Restore(axes, prior, restore);
          return false, prior;
        }
      }
      assert axes[..|axes|] == axes;
      ok := true;
    }

    /**
     The whole context, around a body that may set any dial to any value: whether or not
     the dials could be set, every dial of an axis whose restoring request arrives has its
     value back, and no other dial is changed by anything but the body.
     */
    method Session(axes: seq<string>, desired: Dials, body: Dials -> Dials,
                   requests: nat -> Request, restore: string -> Request)
      returns (ok: bool)
      requires forall name :: name in axes ==> name in dials
      requires forall d :: body(d).Keys == d.Keys
      modifies this
      ensures dials.Keys == old(dials.Keys)
      ensures ok <==> desired.Keys <= Listed(old(dials), axes).Keys
                      && forall k: nat :: k < |axes| ==> requests(k) == Answered
      ensures ok ==> forall name :: name in dials ==>
        dials[name] == if name in axes && Arrives(restore(name)) then old(dials)[name]
                       else body(AtYield(old(dials), axes, desired))[name]
      ensures !ok ==> forall name :: name in dials && (name !in axes || Arrives(restore(name))) ==>
        dials[name] == old(dials)[name]
      ensures !(desired.Keys <= Listed(old(dials), axes).Keys) ==> dials == old(dials)
    {
      var prior: Dials;
      ok, prior := Enter(axes, desired, requests, restore);
      if ok {
        assert dials == AtYield(old(dials), axes, desired);
        dials := body(dials);
        Restore(axes, prior, restore);
      }
    }
  }
}
