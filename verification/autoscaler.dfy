/** The HorizontalPodAutoscaler resource as the reconciliation pass sees it,
    the reference it is keyed by, and the change-detection comparison. */
module Autoscaler {

  /** Object metadata. `resourceVersion` is bumped by the API server on every
      write, including status-only writes; labels and annotations stand for
      the remaining metadata fields. */
  datatype ObjectMeta = ObjectMeta(
    name: string,
    namespace: string,
    resourceVersion: string,
    labels: map<string, string>,
    annotations: map<string, string>)

  /** The desired-state part of an HPA; the metrics list is kept abstract. */
  datatype HpaSpec = HpaSpec(
    scaleTargetRef: string,
    minReplicas: int,
    maxReplicas: int,
    metrics: seq<string>)

  /** The observed-state part of an HPA, written by the HPA controller. */
  datatype HpaStatus = HpaStatus(currentReplicas: int, desiredReplicas: int)

  datatype Hpa = Hpa(meta: ObjectMeta, spec: HpaSpec, status: HpaStatus)

  /** Identity of an HPA: the key of the HPA cache and of the scheduler table. */
  datatype ResourceRef = ResourceRef(name: string, namespace: string)

  /** The cache key of an HPA: its metadata name and namespace. */
  function RefOf(h: Hpa): (r: ResourceRef)
    ensures r.name == h.meta.name && r.namespace == h.meta.namespace
  {
    ResourceRef(h.meta.name, h.meta.namespace)
  }

  /** Two HPAs share a cache key exactly when they share name and namespace. */
  lemma RefOfIdentifies(a: Hpa, b: Hpa)
    ensures RefOf(a) == RefOf(b) <==> a.meta.name == b.meta.name && a.meta.namespace == b.meta.namespace
  {
  }

  /** The metadata with its resource version blanked out. */
  function Masked(m: ObjectMeta): ObjectMeta
  {
    m.(resourceVersion := "")
  }

  /** Two HPAs are "the same" for collector set-up when metadata (resource
      version masked) and spec agree; status never takes part. */
  function EqualHpa(a: Hpa, b: Hpa): (r: bool)
    ensures r <==>
      && a.meta.name == b.meta.name
      && a.meta.namespace == b.meta.namespace
      && a.meta.labels == b.meta.labels
      && a.meta.annotations == b.meta.annotations
      && a.spec == b.spec
  {
    Masked(a.meta) == Masked(b.meta) && a.spec == b.spec
  }

  /** Changing only the resource version and the status is not a change. */
  lemma EqualHpaIgnoresVersionAndStatus(h: Hpa, version: string, status: HpaStatus)
    ensures EqualHpa(h, h.(meta := h.meta.(resourceVersion := version), status := status))
  {
  }

  /** A spec change is a change. */
  lemma EqualHpaDetectsSpecChange(a: Hpa, b: Hpa)
    requires a.spec != b.spec
    ensures !EqualHpa(a, b)
  {
  }

  /** The comparison is an equivalence relation. */
  lemma EqualHpaIsEquivalence(a: Hpa, b: Hpa, c: Hpa)
    ensures EqualHpa(a, a)
    ensures EqualHpa(a, b) <==> EqualHpa(b, a)
    ensures EqualHpa(a, b) && EqualHpa(b, c) ==> EqualHpa(a, c)
  {
  }
}
