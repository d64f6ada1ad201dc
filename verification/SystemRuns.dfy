/** Composing the runs that file-system methods perform. */
module SystemRuns {
  import opened Types
  import opened MetaModel
  import opened CacheModel
  import opened Overlay
  import opened System

  /** `es` is a legal run from `s` to `t` that keeps the invariant. */
  ghost predicate Performs(s: Sys, es: seq<SysEvent>, t: Sys) {
    && LegalSys(s, es)
    && t == RunSys(s, es)
    && (SysInv(s) ==> SysInv(t))
  }

  ghost predicate AllKeepFiles(es: seq<SysEvent>) {
    forall e | e in es :: KeepsFiles(e)
  }

  function Lift(es: seq<Event>): (r: seq<SysEvent>)
    ensures |r| == |es| && forall i | 0 <= i < |es| :: r[i] == OfCache(es[i])
  {
    if es == [] then [] else Lift(es[..|es| - 1]) + [OfCache(es[|es| - 1])]
  }

  lemma NoStep(s: Sys)
    ensures Performs(s, [], s) && AllKeepFiles([])
  {
  }

  lemma ThenSys(s: Sys, a: seq<SysEvent>, t: Sys, b: seq<SysEvent>, u: Sys)
    requires Performs(s, a, t) && Performs(t, b, u)
    ensures Performs(s, a + b, u)
    ensures SysInv(s) ==> SysInv(t) && SysInv(u)
    ensures AllKeepFiles(a) && AllKeepFiles(b) ==> AllKeepFiles(a + b)
  {
    ConcatSys(s, a, b);
  }

  lemma MetaStep(s: Sys, op: MetaOp)
    requires EnabledSys(s, OfMeta(op))
    ensures Performs(s, [OfMeta(op)], ApplySys(s, OfMeta(op)))
    ensures SysInv(s) ==> SysInv(ApplySys(s, OfMeta(op)))
  {
    hide SysInv, EnabledSys, ApplySys;
    ExtendSys(s, [], OfMeta(op));
    assert [] + [OfMeta(op)] == [OfMeta(op)];
    if SysInv(s) {
      SysEventKeepsInv(s, OfMeta(op));
    }
  }

  /** A run of the cache is a run of the system if it appends issued ids and kills unreferenced ones. */
  lemma {:induction false} CacheRun(s: Sys, es: seq<Event>)
    requires Legal(s.cache, es)
    requires forall e | e in es :: (e.Append? ==> e.id < s.meta.nextSlice) && (e.Kill? ==> !Referenced(s.meta, e.id))
    ensures Performs(s, Lift(es), Sys(s.meta, Run(s.cache, es)))
    ensures SysInv(s) ==> SysInv(Sys(s.meta, Run(s.cache, es)))
    ensures AllKeepFiles(Lift(es))
    decreases |es|
  {
    hide Enabled, Apply, SysInv, Referenced;
    if es == [] {
    } else {
      var front, last := es[..|es| - 1], es[|es| - 1];
      assert forall e | e in front :: e in es;
      CacheRun(s, front);
      var t := Sys(s.meta, Run(s.cache, front));
      assert last in es;
      assert EnabledSys(t, OfCache(last));
      ExtendSys(s, Lift(front), OfCache(last));
      if SysInv(s) {
        SysEventKeepsInv(t, OfCache(last));
      }
    }
  }

  /** Not even in between: after every prefix of such a run all files read as before it. */
  lemma NeverDiffers(s: Sys, es: seq<SysEvent>, k: nat)
    requires SysInv(s) && LegalSys(s, es) && AllKeepFiles(es) && k <= |es|
    ensures SameContents(s, RunSys(s, es[..k]))
  {
    hide SysInv, Content, EnabledSys, ApplySys, KeepsFiles;
    PrefixLegalSys(s, es, k);
    QuietRunKeepsContents(s, es[..k]);
  }
}
