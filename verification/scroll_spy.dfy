/**
 * The scroll-spy hook (client/src/hooks/use-scroll-spy.ts): which registered
 * page section is "active", recomputed from each batch of visibility entries
 * the host delivers. The browser computes the entries' geometry; here a batch
 * is a list of (target element id, isIntersecting) pairs.
 */
module ScrollSpy {
  import opened Wrappers

  /** A mounted DOM element; `domId` is what `entry.target.id` reports. */
  datatype Element = Element(domId: string)

  /** A registered section: its id and the ref whose `current` may be unset. */
  datatype SectionRef = SectionRef(id: string, current: Option<Element>)

  /** One IntersectionObserver entry, reduced to what the callback reads. */
  datatype Entry = Entry(targetId: string, isIntersecting: bool)

  /** The observer's root: `null` means the viewport. */
  datatype Root = Viewport | Container(element: Element)

  datatype Threshold = Single(ratio: real) | Many(ratios: seq<real>)

  /** The hook's `options` argument; `None` is an omitted (undefined) field. */
  datatype Options = Options(root: Option<Root>, rootMargin: Option<string>, threshold: Option<Threshold>)

  /** What is passed to the IntersectionObserver constructor. */
  datatype ObserverInit = ObserverInit(root: Root, rootMargin: string, threshold: Threshold)

  const DefaultRootMargin: string := "0px"
  const DefaultThreshold: real := 0.2

  /** Before any callback has fired, no section is active. */
  const InitialActive: Option<string> := None

  /** The destructuring defaults of the options object. */
  function ResolveOptions(o: Options): (c: ObserverInit)
    ensures o.root.Some? ==> c.root == o.root.value
    ensures o.rootMargin.Some? ==> c.rootMargin == o.rootMargin.value
    ensures o.threshold.Some? ==> c.threshold == o.threshold.value
    ensures o.root.None? ==> c.root == Viewport
    ensures o.rootMargin.None? ==> c.rootMargin == DefaultRootMargin
    ensures o.threshold.None? ==> c.threshold == Single(DefaultThreshold)
  {
    ObserverInit(o.root.GetOr(Viewport), o.rootMargin.GetOr(DefaultRootMargin), o.threshold.GetOr(Single(DefaultThreshold)))
  }

  /** Calling the hook with no options observes the viewport with no margin at 20% visibility. */
  lemma DefaultOptions()
    ensures ResolveOptions(Options(None, None, None)) == ObserverInit(Viewport, "0px", Single(0.2))
  {
  }

  /** The elements handed to `observe`: those of sections whose ref is set. */
  function Observed(sections: seq<SectionRef>): (r: seq<Element>)
    ensures |r| <= |sections|
    ensures forall e :: e in r <==> exists k :: 0 <= k < |sections| && sections[k].current == Some(e)
  {
    if sections == [] then []
    else
      var rest := Observed(sections[1..]);
      assert forall k :: 1 <= k < |sections| ==> sections[k] == sections[1..][k - 1];
      match sections[0].current
      case Some(e) => [e] + rest
      case None => rest
  }

  /** Some entry of the batch reports element `id` as intersecting. */
  ghost predicate Visible(entries: seq<Entry>, id: string) {
    exists j :: 0 <= j < |entries| && entries[j] == Entry(id, true)
  }

  /** `entries.filter(e => e.isIntersecting).map(e => e.target.id)` */
  function VisibleIds(entries: seq<Entry>): (ids: seq<string>)
    ensures |ids| <= |entries|
    ensures forall id :: id in ids <==> Visible(entries, id)
  {
    if entries == [] then []
    else
      var rest := VisibleIds(entries[1..]);
      assert forall j :: 1 <= j < |entries| ==> entries[j] == entries[1..][j - 1];
      assert forall id :: Visible(entries[1..], id) ==> Visible(entries, id) by {
        forall id | Visible(entries[1..], id) ensures Visible(entries, id) {
          var j :| 0 <= j < |entries[1..]| && entries[1..][j] == Entry(id, true);
          assert entries[j + 1] == Entry(id, true);
        }
      }
      if entries[0].isIntersecting then [entries[0].targetId] + rest else rest
  }

  /** The registered section ids that are among `ids`, in registration order. */
  function OrderedVisible(sections: seq<SectionRef>, ids: seq<string>): (r: seq<string>)
    ensures forall x :: x in r ==> x in ids
    ensures r == [] <==> forall k :: 0 <= k < |sections| ==> sections[k].id !in ids
    ensures r != [] ==> exists k :: 0 <= k < |sections| && sections[k].id == r[0]
                                    && forall j :: 0 <= j < k ==> sections[j].id !in ids
  {
    if sections == [] then []
    else
      var rest := OrderedVisible(sections[1..], ids);
      assert forall k :: 1 <= k < |sections| ==> sections[k] == sections[1..][k - 1];
      if sections[0].id in ids then [sections[0].id] + rest
      else
        assert rest != [] ==> exists k :: 1 <= k < |sections| && sections[k].id == rest[0]
                                          && forall j :: 0 <= j < k ==> sections[j].id !in ids by {
          if rest != [] {
            var k :| 0 <= k < |sections[1..]| && sections[1..][k].id == rest[0]
                     && forall j :: 0 <= j < k ==> sections[1..][j].id !in ids;
            assert sections[k + 1].id == rest[0];
            assert forall j :: 1 <= j < k + 1 ==> sections[j].id !in ids by {
              forall j | 1 <= j < k + 1 ensures sections[j].id !in ids {
                assert sections[j] == sections[1..][j - 1];
              }
            }
          }
        }
        rest
  }

  /**
   * The observer callback: the first registered section (in registration
   * order) that some entry reports as intersecting becomes active; when no
   * registered section is reported, the previous active id is kept.
   */
  function OnEntries(sections: seq<SectionRef>, entries: seq<Entry>, active: Option<string>): (r: Option<string>)
    ensures (forall k :: 0 <= k < |sections| ==> !Visible(entries, sections[k].id)) ==> r == active
    ensures (exists k :: 0 <= k < |sections| && Visible(entries, sections[k].id)) ==>
              r.Some? && Visible(entries, r.value) &&
              exists k :: 0 <= k < |sections| && sections[k].id == r.value
                          && forall j :: 0 <= j < k ==> !Visible(entries, sections[j].id)
    ensures r == active || exists k :: 0 <= k < |sections| && r == Some(sections[k].id)
  {
    var visibleIds := VisibleIds(entries);
    if |visibleIds| > 0 then
      var orderedVisible := OrderedVisible(sections, visibleIds);
      if |orderedVisible| > 0 then Some(orderedVisible[0]) else active
    else active
  }

  /** Only the set of intersecting ids matters: the order and multiplicity of entries do not. */
  lemma EntryOrderIrrelevant(sections: seq<SectionRef>, e1: seq<Entry>, e2: seq<Entry>, active: Option<string>)
    requires forall id :: Visible(e1, id) <==> Visible(e2, id)
    ensures OnEntries(sections, e1, active) == OnEntries(sections, e2, active)
  {
    var r1 := OnEntries(sections, e1, active);
    var r2 := OnEntries(sections, e2, active);
    if exists k :: 0 <= k < |sections| && Visible(e1, sections[k].id) {
      var k1 :| 0 <= k1 < |sections| && sections[k1].id == r1.value
                && forall j :: 0 <= j < k1 ==> !Visible(e1, sections[j].id);
      var k2 :| 0 <= k2 < |sections| && sections[k2].id == r2.value
                && forall j :: 0 <= j < k2 ==> !Visible(e2, sections[j].id);
      assert Visible(e2, sections[k1].id) && Visible(e1, sections[k2].id);
      assert k1 == k2;
    }
  }

  /** Delivering the same batch twice leaves the same active id as delivering it once. */
  lemma OnEntriesIdempotent(sections: seq<SectionRef>, entries: seq<Entry>, active: Option<string>)
    ensures OnEntries(sections, entries, OnEntries(sections, entries, active)) == OnEntries(sections, entries, active)
  {
    var r1 := OnEntries(sections, entries, active);
    var r2 := OnEntries(sections, entries, r1);
    if exists k :: 0 <= k < |sections| && Visible(entries, sections[k].id) {
      var k1 :| 0 <= k1 < |sections| && sections[k1].id == r1.value
                && forall j :: 0 <= j < k1 ==> !Visible(entries, sections[j].id);
      var k2 :| 0 <= k2 < |sections| && sections[k2].id == r2.value
                && forall j :: 0 <= j < k2 ==> !Visible(entries, sections[j].id);
      assert Visible(entries, sections[k1].id) && Visible(entries, sections[k2].id);
      assert k1 == k2;
    }
  }

  /** The tie-break example: with both later sections visible, the earlier-registered one wins. */
  lemma TieBreakExample(active: Option<string>)
    ensures OnEntries([SectionRef("introduction", None), SectionRef("architecture", None), SectionRef("embeddings", None)],
                      [Entry("embeddings", true), Entry("architecture", true), Entry("introduction", false)], active)
            == Some("architecture")
  {
    var entries := [Entry("embeddings", true), Entry("architecture", true), Entry("introduction", false)];
    assert Visible(entries, "architecture") by { assert entries[1] == Entry("architecture", true); }
  }

  /** A batch with nothing intersecting keeps the current section. */
  lemma RetentionExample(sections: seq<SectionRef>, entries: seq<Entry>)
    requires forall j :: 0 <= j < |entries| ==> !entries[j].isIntersecting
    ensures OnEntries(sections, entries, Some("attention")) == Some("attention")
  {
  }
}
