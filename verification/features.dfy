/** The feature registry: an ordered list of declarative feature descriptors,
    mounted on page load when they apply and unmounted on page teardown. */
module Features {
  import opened Wrappers

  /** The outcome of a descriptor's `when` predicate. `NoGuard` is a
      descriptor whose `when` is missing or is not a function. */
  datatype Guard = NoGuard | Truthy | Falsy | Throws

  /** The outcome of calling a `mount` or `unmount` hook. */
  datatype Hook = Missing | Returns | Fails

  /** A descriptor. `obj` is the identity of the descriptor object: an
      object registered twice appears twice with the same `obj`. */
  datatype Feature = Feature(
    obj: nat,
    id: string,
    pages: Option<seq<string>>,
    when: Guard,
    mount: Hook,
    unmount: Hook)

  /** What `init` and teardown do to the descriptor at `index` of the list. */
  datatype Step =
    | AskWhen(index: nat)      // `when(ctx)` is called
    | CallMount(index: nat)    // `mount(ctx)` is called
    | LogError(index: nat)     // the catch logs a thrown error
    | CallUnmount(index: nat)  // `unmount()` is called

  /** `!f.pages || f.pages.includes(page)`. */
  predicate PageMatches(f: Feature, page: string)
    ensures f.pages.None? ==> PageMatches(f, page)
    ensures f.pages == Some([]) ==> !PageMatches(f, page)
    ensures f.pages.Some? && page in f.pages.value ==> PageMatches(f, page)
  {
    f.pages.None? || page in f.pages.value
  }

  /** The mount rule: the page matches and `when` is absent or truthy. */
  predicate WillMount(f: Feature, page: string)
    ensures WillMount(f, page) ==> PageMatches(f, page)
    ensures f.when == Falsy || f.when == Throws ==> !WillMount(f, page)
    ensures PageMatches(f, page) && f.when == NoGuard ==> WillMount(f, page)
  {
    PageMatches(f, page) && (f.when == NoGuard || f.when == Truthy)
  }

  /** What `init` does for one descriptor. Both tests are computed before
      either is used, so `when` is called even when the page does not match;
      a throw from `when` or `mount` ends up in the catch. */
  function InitSteps(f: Feature, index: nat, page: string): (t: seq<Step>)
    ensures forall k :: 0 <= k < |t| ==> t[k].index == index
  {
    (if f.when == NoGuard then [] else [AskWhen(index)])
    + (if f.when == Throws then [LogError(index)]
       else if !WillMount(f, page) || f.mount == Missing then []
       else if f.mount == Returns then [CallMount(index)]
       else [CallMount(index), LogError(index)])
  }

  /** What `init` does for the whole list, in registration order. */
  function InitTrace(fs: seq<Feature>, page: string): (t: seq<Step>)
    ensures forall k :: 0 <= k < |t| ==> t[k].index < |fs|
  {
    if fs == [] then []
    else InitTrace(fs[..|fs| - 1], page) + InitSteps(fs[|fs| - 1], |fs| - 1, page)
  }

  /** Everything done for an earlier descriptor comes before anything done
      for a later one. */
  predicate InRegistrationOrder(t: seq<Step>)
  {
    forall a, b :: 0 <= a < b < |t| ==> t[a].index <= t[b].index
  }

  /** `init` visits the descriptors in registration order. */
  lemma {:induction false} InitTraceOrdered(fs: seq<Feature>, page: string)
    ensures InRegistrationOrder(InitTrace(fs, page))
  {
    if fs != [] {
      var pre := InitTrace(fs[..|fs| - 1], page);
      InitTraceOrdered(fs[..|fs| - 1], page);
      var t := InitTrace(fs, page);
      forall a, b | 0 <= a < b < |t|
        ensures t[a].index <= t[b].index
      {
        if b >= |pre| {
          assert t[b] == InitSteps(fs[|fs| - 1], |fs| - 1, page)[b - |pre|];
          if a < |pre| {
            assert t[a] == pre[a];
          } else {
            assert t[a] == InitSteps(fs[|fs| - 1], |fs| - 1, page)[a - |pre|];
          }
        } else {
          assert t[a] == pre[a] && t[b] == pre[b];
        }
      }
    }
  }

  /** Isolation: descriptor `i` has its `mount` called exactly when it
      satisfies the mount rule and has a `mount`, whatever the others do
      (a throw from one of them included). */
  lemma {:induction false} MountCalledIff(fs: seq<Feature>, page: string, i: nat)
    requires i < |fs|
    ensures CallMount(i) in InitTrace(fs, page) <==> WillMount(fs[i], page) && fs[i].mount != Missing
  {
    var last := |fs| - 1;
    var pre := InitTrace(fs[..last], page);
    if i < last {
      MountCalledIff(fs[..last], page, i);
      assert CallMount(i) !in InitSteps(fs[last], last, page);
    } else {
      assert CallMount(i) !in pre;
    }
  }

  /** `when` is called for every descriptor that has one, whether or not
      its page filter passes. */
  lemma {:induction false} WhenAskedIff(fs: seq<Feature>, page: string, i: nat)
    requires i < |fs|
    ensures AskWhen(i) in InitTrace(fs, page) <==> fs[i].when != NoGuard
  {
    var last := |fs| - 1;
    var pre := InitTrace(fs[..last], page);
    if i < last {
      WhenAskedIff(fs[..last], page, i);
      assert AskWhen(i) !in InitSteps(fs[last], last, page);
    } else {
      assert AskWhen(i) !in pre;
    }
  }

  /** An error is logged for a descriptor exactly when its `when` throws or
      its `mount` is called and throws. */
  lemma {:induction false} ErrorLoggedIff(fs: seq<Feature>, page: string, i: nat)
    requires i < |fs|
    ensures LogError(i) in InitTrace(fs, page) <==>
      fs[i].when == Throws || (WillMount(fs[i], page) && fs[i].mount == Fails)
  {
    var last := |fs| - 1;
    var pre := InitTrace(fs[..last], page);
    if i < last {
      ErrorLoggedIff(fs[..last], page, i);
      assert LogError(i) !in InitSteps(fs[last], last, page);
    } else {
      assert LogError(i) !in pre;
    }
  }

  /** A descriptor with no page restriction and no `when` always mounts; one
      whose `when` is falsy never does, whatever its pages. */
  lemma MountRuleCases(f: Feature, page: string)
    ensures f.pages.None? && f.when == NoGuard ==> WillMount(f, page)
    ensures f.when == Falsy || f.when == Throws ==> !WillMount(f, page)
  {
  }

  /** The descriptor objects that `init` flags as mounted. */
  function MountedBy(fs: seq<Feature>, page: string): set<nat>
  {
    set i | 0 <= i < |fs| && WillMount(fs[i], page) :: fs[i].obj
  }

  lemma MountedBySnoc(fs: seq<Feature>, page: string)
    requires fs != []
    ensures MountedBy(fs, page) == MountedBy(fs[..|fs| - 1], page)
      + (if WillMount(fs[|fs| - 1], page) then {fs[|fs| - 1].obj} else {})
  {
    var init := fs[..|fs| - 1];
    forall o | o in MountedBy(fs, page)
      ensures o in MountedBy(init, page) || (WillMount(fs[|fs| - 1], page) && o == fs[|fs| - 1].obj)
    {
      var i :| 0 <= i < |fs| && WillMount(fs[i], page) && fs[i].obj == o;
      if i < |init| {
        assert init[i] == fs[i];
      }
    }
    forall o | o in MountedBy(init, page)
      ensures o in MountedBy(fs, page)
    {
      var i :| 0 <= i < |init| && WillMount(init[i], page) && init[i].obj == o;
      assert fs[i] == init[i];
    }
  }

  /** Entries with the same object are the same descriptor. */
  predicate OneObjectOneDescriptor(fs: seq<Feature>)
  {
    forall i, j :: 0 <= i < |fs| && 0 <= j < |fs| && fs[i].obj == fs[j].obj ==> fs[i] == fs[j]
  }

  class FeatureManager {
    /** The registered descriptors, in registration order. */
    var features: seq<Feature>
    /** The descriptor objects whose `_mounted` property is set. The flag
        belongs to the object, so every registration of it shares one flag. */
    var mounted: set<nat>

    ghost predicate Valid()
      reads this
    {
      OneObjectOneDescriptor(features)
    }

    constructor ()
      ensures Valid() && features == [] && mounted == {}
    {
      features, mounted := [], {};
    }

    /** `register`: appends the descriptor; its `_mounted` flag is left as
        it is. */
    method Register(f: Feature)
      requires Valid()
      requires forall g :: g in features && g.obj == f.obj ==> g == f
      modifies this
      ensures Valid()
      ensures features == old(features) + [f] && mounted == old(mounted)
    {
      features := features + [f];
    }

    /** The body of `init` for the descriptor at `i`: the flag is set before
        `mount` runs, so a descriptor whose `mount` throws still counts as
        mounted; a throw from `when` or `mount` is caught and logged. */
    method MountOne(i: nat, page: string) returns (steps: seq<Step>)
      requires i < |features|
      modifies this
      ensures features == old(features)
      ensures mounted == old(mounted) + (if WillMount(features[i], page) then {features[i].obj} else {})
      ensures steps == InitSteps(features[i], i, page)
    {
      steps := [];
      var f := features[i];
      var okPage := f.pages.None? || page in f.pages.value;
      if f.when != NoGuard {
        steps := steps + [AskWhen(i)];
      }
      if f.when == Throws {
        steps := steps + [LogError(i)];
      } else {
        var okWhen := f.when != Falsy;
        if okPage && okWhen {
          mounted := mounted + {f.obj};
          if f.mount != Missing {
            steps := steps + [CallMount(i)];
            if f.mount == Fails {
              steps := steps + [LogError(i)];
            }
          }
        }
      }
    }

    /** `init`: visits the descriptors in registration order and flags and
        mounts those that satisfy the mount rule. */
    method Init(page: string) returns (trace: seq<Step>)
      requires Valid()
      modifies this
      ensures Valid() && features == old(features)
      ensures mounted == old(mounted) + MountedBy(features, page)
      ensures trace == InitTrace(features, page)
    {
      trace := [];
      var i := 0;
      while i < |features|
        invariant 0 <= i <= |features| && features == old(features)
        invariant mounted == old(mounted) + MountedBy(features[..i], page)
        invariant trace == InitTrace(features[..i], page)
      {
        var steps := MountOne(i, page);
        assert features[..i + 1][..i] == features[..i];
        MountedBySnoc(features[..i + 1], page);
        trace := trace + steps;
        i := i + 1;
      }
      assert features[..i] == features;
    }

    /** Teardown on `beforeunload`: calls `unmount` of every entry whose
        object is flagged and has one, in registration order; an object
        registered twice is unmounted twice. A throwing `unmount` is
        swallowed and the rest still run. */
    method Teardown() returns (calls: seq<Step>)
      ensures forall k :: 0 <= k < |calls| ==> calls[k].CallUnmount?
      ensures forall i: nat :: CallUnmount(i) in calls <==>
        i < |features| && features[i].obj in mounted && features[i].unmount != Missing
      ensures forall a, b :: 0 <= a < b < |calls| ==> calls[a].index < calls[b].index
    {
      calls := [];
      var i := 0;
      while i < |features|
        invariant 0 <= i <= |features|
        invariant forall k :: 0 <= k < |calls| ==> calls[k].CallUnmount? && calls[k].index < i
        invariant forall j: nat :: CallUnmount(j) in calls <==>
          j < i && features[j].obj in mounted && features[j].unmount != Missing
        invariant forall a, b :: 0 <= a < b < |calls| ==> calls[a].index < calls[b].index
      {
        if features[i].obj in mounted && features[i].unmount != Missing {
          calls := calls + [CallUnmount(i)];
        }
        i := i + 1;
      }
    }
  }
}
