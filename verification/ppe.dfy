/** PPE compliance of one frame (`src/ai_worker/main.cpp`): detections sorted into persons and
    five kinds of wearable items, items paired with persons by containment, track ids adopted
    by overlap, and violations appended to the tracked objects while the loop reads them.
    Coordinates are reals; rounding is not modelled. */
module Ppe {
  import opened Common

  datatype Box = Box(x1: real, y1: real, x2: real, y2: real)

  datatype Detection = Detection(box: Box, score: real, classId: int)

  datatype Tracked = Tracked(box: Box, score: real, classId: int, name: string, trackId: int)

  /** Class ids per role; a negative id switches the role off. */
  datatype Config = Config(person: int, helmet: int, vest: int, gloves: int, mask: int, boots: int)

  datatype Item = Helmet | Vest | Gloves | Mask | Boots

  datatype Role = Person | Wearable(item: Item)

  function ClassOf(c: Config, item: Item): int {
    match item case Helmet => c.helmet case Vest => c.vest case Gloves => c.gloves case Mask => c.mask case Boots => c.boots
  }

  function Threshold(item: Item): real {
    match item case Helmet => 0.5 case Vest => 0.5 case Gloves => 0.3 case Mask => 0.4 case Boots => 0.5
  }

  function ViolationClass(item: Item): int {
    match item case Helmet => 406 case Vest => 407 case Gloves => 408 case Mask => 409 case Boots => 410
  }

  function ViolationName(item: Item): string {
    match item
    case Helmet => "NoHelmet" case Vest => "NoVest" case Gloves => "NoGloves" case Mask => "NoMask" case Boots => "NoBoots"
  }

  // ----- sorting the detections -----

  /** The else-if cascade: the first enabled role whose class matches. */
  function RoleOf(c: Config, classId: int): Option<Role> {
    if classId < 0 then None
    else if classId == c.person then Some(Person)
    else if classId == c.helmet then Some(Wearable(Helmet))
    else if classId == c.vest then Some(Wearable(Vest))
    else if classId == c.gloves then Some(Wearable(Gloves))
    else if classId == c.mask then Some(Wearable(Mask))
    else if classId == c.boots then Some(Wearable(Boots))
    else None
  }

  /** Which role a class id has: the first enabled one that claims it, persons first. */
  lemma RoleMeaning(c: Config, classId: int, item: Item)
    ensures RoleOf(c, classId) == Some(Person) <==> classId >= 0 && classId == c.person
    ensures RoleOf(c, classId) == Some(Wearable(item)) <==>
        classId >= 0 && classId != c.person &&
        match item
        case Helmet => classId == c.helmet
        case Vest => classId == c.vest && classId != c.helmet
        case Gloves => classId == c.gloves && classId !in {c.helmet, c.vest}
        case Mask => classId == c.mask && classId !in {c.helmet, c.vest, c.gloves}
        case Boots => classId == c.boots && classId !in {c.helmet, c.vest, c.gloves, c.mask}
  {
  }

  /** What a loop that appends `f(x)` for each element of a list leaves behind. */
  function Flat<S, T>(list: seq<S>, f: S -> seq<T>): seq<T> {
    if list == [] then [] else Flat(list[..|list| - 1], f) + f(list[|list| - 1])
  }

  lemma FlatNext<S, T>(list: seq<S>, f: S -> seq<T>, i: nat)
    requires i < |list|
    ensures Flat(list[..i + 1], f) == Flat(list[..i], f) + f(list[i])
  {
    assert list[..i + 1][..i] == list[..i];
  }

  lemma {:induction false} FlatSplit<S, T>(a: seq<S>, b: seq<S>, f: S -> seq<T>)
    ensures Flat(a + b, f) == Flat(a, f) + Flat(b, f)
    decreases b
  {
    if b == [] {
      assert a + b == a;
    } else {
      assert (a + b)[..|a + b| - 1] == a + b[..|b| - 1];
      FlatSplit(a, b[..|b| - 1], f);
    }
  }

  /** Reordering the input reorders the output. */
  lemma {:induction false} FlatPermutes<S, T>(a: seq<S>, b: seq<S>, f: S -> seq<T>)
    requires multiset(a) == multiset(b)
    ensures multiset(Flat(a, f)) == multiset(Flat(b, f))
    decreases a
  {
    if a == [] {
      assert |multiset(b)| == 0;
    } else {
      var rest, x := a[..|a| - 1], a[|a| - 1];
      assert a == rest + [x];
      assert x in multiset(b);
      var k :| 0 <= k < |b| && b[k] == x;
      WithoutOne(rest, x, b, k);
      FlatPermutes(rest, b[..k] + b[k + 1..], f);
      FlatAround(b, k, f);
    }
  }

  lemma WithoutOne<S>(rest: seq<S>, x: S, b: seq<S>, k: nat)
    requires k < |b| && b[k] == x && multiset(rest + [x]) == multiset(b)
    ensures multiset(rest) == multiset(b[..k] + b[k + 1..])
  {
    assert b == b[..k] + ([x] + b[k + 1..]);
    assert multiset(b) == multiset(b[..k]) + (multiset{x} + multiset(b[k + 1..]));
    assert multiset(rest) == multiset(rest + [x]) - multiset{x};
    assert multiset(b[..k] + b[k + 1..]) == multiset(b) - multiset{x};
  }

  lemma FlatAround<S, T>(b: seq<S>, k: nat, f: S -> seq<T>)
    requires k < |b|
    ensures multiset(Flat(b, f)) == multiset(Flat(b[..k] + b[k + 1..], f)) + multiset(f(b[k]))
  {
    assert b == b[..k + 1] + b[k + 1..];
    FlatSplit(b[..k + 1], b[k + 1..], f);
    FlatNext(b, f, k);
    FlatSplit(b[..k], b[k + 1..], f);
  }

  lemma {:induction false} FlatSame<S, T>(list: seq<S>, f: S -> seq<T>, g: S -> seq<T>)
    requires forall x :: x in list ==> f(x) == g(x)
    ensures Flat(list, f) == Flat(list, g)
    decreases list
  {
    if list != [] {
      FlatSame(list[..|list| - 1], f, g);
    }
  }

  function Pick(c: Config, role: Role): Detection -> seq<Detection> {
    (d: Detection) => if RoleOf(c, d.classId) == Some(role) then [d] else []
  }

  function Of(c: Config, detections: seq<Detection>, role: Role): seq<Detection> {
    Flat(detections, Pick(c, role))
  }

  lemma {:induction false} OfMembers(c: Config, detections: seq<Detection>, role: Role, d: Detection)
    ensures d in Of(c, detections, role) <==> d in detections && RoleOf(c, d.classId) == Some(role)
    decreases detections
  {
    if detections != [] {
      OfMembers(c, detections[..|detections| - 1], role, d);
    }
  }

  datatype Kit = Kit(helmets: seq<Detection>, vests: seq<Detection>, gloves: seq<Detection>,
                     masks: seq<Detection>, boots: seq<Detection>)

  function KitOf(c: Config, detections: seq<Detection>): Kit {
    Kit(Of(c, detections, Wearable(Helmet)), Of(c, detections, Wearable(Vest)), Of(c, detections, Wearable(Gloves)),
        Of(c, detections, Wearable(Mask)), Of(c, detections, Wearable(Boots)))
  }

  lemma NextOf(c: Config, detections: seq<Detection>, i: nat, role: Role)
    requires i < |detections|
    ensures Of(c, detections[..i + 1], role) ==
            if RoleOf(c, detections[i].classId) == Some(role) then Of(c, detections[..i], role) + [detections[i]]
            else Of(c, detections[..i], role)
  {
    FlatNext(detections, Pick(c, role), i);
  }

  method Collect(c: Config, detections: seq<Detection>) returns (persons: seq<Detection>, kit: Kit)
    ensures persons == Of(c, detections, Person)
    ensures kit == KitOf(c, detections)
  {
    persons, kit := [], Kit([], [], [], [], []);
    for i := 0 to |detections|
      invariant persons == Of(c, detections[..i], Person)
      invariant kit == KitOf(c, detections[..i])
    {
      var d := detections[i];
      forall role { NextOf(c, detections, i, role); }
      if d.classId < 0 { continue; }
      if c.person >= 0 && d.classId == c.person { persons := persons + [d]; }
      else if c.helmet >= 0 && d.classId == c.helmet { kit := kit.(helmets := kit.helmets + [d]); }
      else if c.vest >= 0 && d.classId == c.vest { kit := kit.(vests := kit.vests + [d]); }
      else if c.gloves >= 0 && d.classId == c.gloves { kit := kit.(gloves := kit.gloves + [d]); }
      else if c.mask >= 0 && d.classId == c.mask { kit := kit.(masks := kit.masks + [d]); }
      else if c.boots >= 0 && d.classId == c.boots { kit := kit.(boots := kit.boots + [d]); }
    }
    assert detections[..|detections|] == detections;
  }

  // ----- geometry -----

  function MaxR(a: real, b: real): real { if a >= b then a else b }

  function MinR(a: real, b: real): real { if a <= b then a else b }

  predicate Overlap(a: Box, b: Box) {
    MinR(a.x2, b.x2) > MaxR(a.x1, b.x1) && MinR(a.y2, b.y2) > MaxR(a.y1, b.y1)
  }

  function Intersection(a: Box, b: Box): real {
    (MinR(a.x2, b.x2) - MaxR(a.x1, b.x1)) * (MinR(a.y2, b.y2) - MaxR(a.y1, b.y1))
  }

  function Area(a: Box): (r: real)
    ensures r >= 1.0
  {
    MaxR(1.0, (a.x2 - a.x1) * (a.y2 - a.y1))
  }

  predicate ContainedIn(small: Box, big: Box, minOverlap: real) {
    Overlap(small, big) && Intersection(small, big) / Area(small) >= minOverlap
  }

  lemma ProductGrows(a: real, b: real, c: real, d: real)
    requires 0.0 < a <= b && 0.0 < c <= d
    ensures 0.0 < a * c <= b * d
  {
    assert a * c <= b * c && b * c <= b * d;
  }

  /** Of overlapping boxes the intersection is positive and no larger than either area. */
  lemma IntersectionFits(a: Box, b: Box)
    requires Overlap(a, b)
    ensures 0.0 < Intersection(a, b) && Intersection(a, b) <= Area(a) && Intersection(a, b) <= Area(b)
  {
    var w, h := MinR(a.x2, b.x2) - MaxR(a.x1, b.x1), MinR(a.y2, b.y2) - MaxR(a.y1, b.y1);
    ProductGrows(w, a.x2 - a.x1, h, a.y2 - a.y1);
    ProductGrows(w, b.x2 - b.x1, h, b.y2 - b.y1);
  }

  function Iou(a: Box, b: Box): (r: real)
    requires Overlap(a, b)
    ensures 0.0 < r <= 1.0
  {
    IntersectionFits(a, b);
    var inter := Intersection(a, b);
    var union := Area(a) + Area(b) - inter;
    Quotient(inter, union);
    inter / union
  }

  lemma Quotient(p: real, q: real)
    requires 0.0 < p <= q
    ensures 0.0 < p / q <= 1.0
  {
  }

  lemma QuotientIs(p: real, q: real)
    requires q > 0.0
    ensures p / q * q == p
  {
  }

  /** The shared rectangle of two boxes, written out. */
  lemma IntersectionMeaning(a: Box, b: Box)
    ensures var w := (if a.x2 <= b.x2 then a.x2 else b.x2) - (if a.x1 >= b.x1 then a.x1 else b.x1);
            var h := (if a.y2 <= b.y2 then a.y2 else b.y2) - (if a.y1 >= b.y1 then a.y1 else b.y1);
            (Overlap(a, b) <==> w > 0.0 && h > 0.0) && Intersection(a, b) == w * h
    ensures Overlap(a, b) == Overlap(b, a) && Intersection(a, b) == Intersection(b, a)
  {
    assert MinR(a.x2, b.x2) == MinR(b.x2, a.x2) && MaxR(a.x1, b.x1) == MaxR(b.x1, a.x1);
    assert MinR(a.y2, b.y2) == MinR(b.y2, a.y2) && MaxR(a.y1, b.y1) == MaxR(b.y1, a.y1);
  }

  /** A box's area counts as at least 1. */
  lemma AreaMeaning(a: Box)
    ensures var product := (a.x2 - a.x1) * (a.y2 - a.y1);
            Area(a) == if product > 1.0 then product else 1.0
  {
  }

  /** Intersection over union: what both share over what they cover together; symmetric. */
  lemma IouMeaning(a: Box, b: Box)
    requires Overlap(a, b)
    ensures Area(a) + Area(b) - Intersection(a, b) > 0.0
    ensures Iou(a, b) * (Area(a) + Area(b) - Intersection(a, b)) == Intersection(a, b)
    ensures Overlap(b, a) && Iou(b, a) == Iou(a, b)
  {
    IntersectionFits(a, b);
    IntersectionMeaning(a, b);
    RatioOf(Intersection(a, b), Area(a) + Area(b) - Intersection(a, b), Iou(a, b));
  }

  lemma RatioOf(p: real, q: real, r: real)
    requires q > 0.0 && r == p / q
    ensures r * q == p
  {
    QuotientIs(p, q);
  }

  // ----- adopting a track id -----

  /** A tracked COCO person with a stable id that overlaps the box. */
  predicate Candidate(t: Tracked, person: Box) {
    t.classId == 0 && t.trackId >= 0 && Overlap(t.box, person)
  }

  /** The best overlap above 0.40 and its track id, or -1; the first of equals wins. */
  function Best(objects: seq<Tracked>, person: Box): (real, int) {
    if objects == [] then (0.4, -1)
    else
      var before := Best(objects[..|objects| - 1], person);
      var t := objects[|objects| - 1];
      if Candidate(t, person) && Iou(t.box, person) > before.0 then (Iou(t.box, person), t.trackId) else before
  }

  method Adopt(objects: seq<Tracked>, person: Box) returns (trackId: int)
    ensures trackId == Best(objects, person).1
  {
    var best := 0.4;
    trackId := -1;
    for i := 0 to |objects|
      invariant (best, trackId) == Best(objects[..i], person)
    {
      var t := objects[i];
      assert objects[..i + 1][..i] == objects[..i];
      if t.classId != 0 || t.trackId < 0 || !Overlap(t.box, person) { continue; }
      var iou := Iou(t.box, person);
      if iou > best { best, trackId := iou, t.trackId; }
    }
    assert objects[..|objects|] == objects;
  }

  /** The k-th object overlaps the person best, and better than every object before it. */
  predicate FirstBest(objects: seq<Tracked>, person: Box, k: nat) {
    && k < |objects| && Candidate(objects[k], person) && Iou(objects[k].box, person) > 0.4
    && (forall t :: t in objects && Candidate(t, person) ==> Iou(t.box, person) <= Iou(objects[k].box, person))
    && (forall t :: t in objects[..k] && Candidate(t, person) ==> Iou(t.box, person) < Iou(objects[k].box, person))
  }

  /** The adopted id is that of the first object of maximal overlap, if that exceeds 0.40
      (k is its place); otherwise no candidate's overlap exceeds 0.40 and the id is -1. */
  lemma {:induction false} AdoptedIsMaximal(objects: seq<Tracked>, person: Box) returns (k: int)
    ensures var (best, id) := Best(objects, person);
            if k == -1 then best == 0.4 && id == -1 && forall t :: t in objects && Candidate(t, person) ==> Iou(t.box, person) <= 0.4
            else k >= 0 && FirstBest(objects, person, k) && best == Iou(objects[k].box, person) && id == objects[k].trackId
    decreases objects
  {
    if objects == [] {
      k := -1;
    } else {
      var before, t := objects[..|objects| - 1], objects[|objects| - 1];
      k := AdoptedIsMaximal(before, person);
      assert forall u :: u in objects <==> u in before || u == t;
      if Candidate(t, person) && Iou(t.box, person) > Best(before, person).0 {
        k := |objects| - 1;
      } else if k >= 0 {
        assert objects[..k] == before[..k];
      }
    }
  }

  /** In plain words: no id is adopted exactly when no tracked person of class 0 with an id
      overlaps by more than 0.40; an adopted id is that of such a person, and none overlaps more. */
  lemma AdoptionMeaning(objects: seq<Tracked>, person: Box)
    ensures var id := Best(objects, person).1;
            && (id == -1 <==> forall t :: t in objects && t.classId == 0 && t.trackId >= 0 && Overlap(t.box, person) ==>
                                Iou(t.box, person) <= 0.4)
            && (id != -1 ==> exists k :: 0 <= k < |objects| && objects[k].trackId == id && HasMost(objects, person, k))
  {
    var k := AdoptedIsMaximal(objects, person);
    if k >= 0 {
      assert objects[k] in objects && HasMost(objects, person, k);
    }
  }

  predicate HasMost(objects: seq<Tracked>, person: Box, k: int)
    requires 0 <= k < |objects|
  {
    && objects[k].classId == 0 && objects[k].trackId >= 0 && Overlap(objects[k].box, person)
    && Iou(objects[k].box, person) > 0.4
    && forall t :: t in objects && t.classId == 0 && t.trackId >= 0 && Overlap(t.box, person) ==>
         Iou(t.box, person) <= Iou(objects[k].box, person)
  }

  predicate Marked(objects: seq<Tracked>) {
    forall t :: t in objects ==> t.classId >= 300
  }

  /** Objects that are not COCO persons cannot change an adoption. */
  lemma {:induction false} OthersDoNotMatter(objects: seq<Tracked>, more: seq<Tracked>, person: Box)
    requires Marked(more)
    ensures Best(objects + more, person) == Best(objects, person)
    decreases more
  {
    if more == [] {
      assert objects + more == objects;
    } else {
      var last := |more| - 1;
      assert (objects + more)[..|objects + more| - 1] == objects + more[..last];
      assert more[last] in more;
      OthersDoNotMatter(objects, more[..last], person);
    }
  }

  // ----- violations -----

  ghost predicate Has(items: seq<Detection>, person: Box, minOverlap: real) {
    exists d :: d in items && ContainedIn(d.box, person, minOverlap)
  }

  method AnyContained(items: seq<Detection>, person: Box, minOverlap: real) returns (has: bool)
    ensures has <==> Has(items, person, minOverlap)
  {
    for i := 0 to |items|
      invariant forall k :: 0 <= k < i ==> !ContainedIn(items[k].box, person, minOverlap)
    {
      if ContainedIn(items[i].box, person, minOverlap) { return true; }
    }
    has := false;
  }

  /** The items some collected detection shows inside the person's box. */
  ghost function WornBy(c: Config, detections: seq<Detection>, person: Detection): set<Item> {
    set item: Item | Has(Of(c, detections, Wearable(item)), person.box, Threshold(item))
  }

  method Wears(c: Config, ghost detections: seq<Detection>, items: seq<Detection>, person: Detection, item: Item, minOverlap: real)
    returns (has: bool)
    requires items == Of(c, detections, Wearable(item)) && minOverlap == Threshold(item)
    ensures has <==> item in WornBy(c, detections, person)
  {
    has := AnyContained(items, person.box, minOverlap);
  }

  lemma FiveItems(worn: set<Item>, all: set<Item>)
    requires Helmet in worn <==> Helmet in all
    requires Vest in worn <==> Vest in all
    requires Gloves in worn <==> Gloves in all
    requires Mask in worn <==> Mask in all
    requires Boots in worn <==> Boots in all
    ensures worn == all
  {
    forall item ensures item in worn <==> item in all {
      match item case Helmet => case Vest => case Gloves => case Mask => case Boots =>
    }
  }

  method Worn(c: Config, ghost detections: seq<Detection>, kit: Kit, person: Detection) returns (worn: set<Item>)
    requires kit == KitOf(c, detections)
    ensures worn == WornBy(c, detections, person)
  {
    var helmet := Wears(c, detections, kit.helmets, person, Helmet, 0.50);
    var vest := Wears(c, detections, kit.vests, person, Vest, 0.50);
    var gloves := Wears(c, detections, kit.gloves, person, Gloves, 0.30);
    var mask := Wears(c, detections, kit.masks, person, Mask, 0.40);
    var boots := Wears(c, detections, kit.boots, person, Boots, 0.50);
    worn := SetOf(helmet, vest, gloves, mask, boots);
    FiveItems(worn, WornBy(c, detections, person));
  }

  function SetOf(helmet: bool, vest: bool, gloves: bool, mask: bool, boots: bool): (r: set<Item>)
    ensures Helmet in r <==> helmet
    ensures Vest in r <==> vest
    ensures Gloves in r <==> gloves
    ensures Mask in r <==> mask
    ensures Boots in r <==> boots
  {
    (if helmet then {Helmet} else {}) + (if vest then {Vest} else {}) + (if gloves then {Gloves} else {}) +
    (if mask then {Mask} else {}) + (if boots then {Boots} else {})
  }

  lemma AtLeast(p: real, q: real, t: real)
    requires q > 0.0
    ensures p / q >= t <==> p >= t * q
  {
    var r := p / q;
    QuotientIs(p, q);
    if r >= t { Scaled(t, r, q); }
    if p >= t * q && r < t { StrictlyScaled(r, t, q); }
  }

  lemma Scaled(a: real, b: real, q: real)
    requires a <= b && q > 0.0
    ensures a * q <= b * q
  {
  }

  lemma StrictlyScaled(a: real, b: real, q: real)
    requires a < b && q > 0.0
    ensures a * q < b * q
  {
  }

  /** The share of an item's box that has to lie inside the person's. */
  predicate Inside(item: Box, person: Box, share: real) {
    var w := (if item.x2 <= person.x2 then item.x2 else person.x2) - (if item.x1 >= person.x1 then item.x1 else person.x1);
    var h := (if item.y2 <= person.y2 then item.y2 else person.y2) - (if item.y1 >= person.y1 then item.y1 else person.y1);
    var own := (item.x2 - item.x1) * (item.y2 - item.y1);
    w > 0.0 && h > 0.0 && w * h >= share * (if own > 1.0 then own else 1.0)
  }

  lemma ContainedIff(small: Box, big: Box, share: real)
    ensures ContainedIn(small, big, share) <==> Inside(small, big, share)
  {
    if Overlap(small, big) {
      AtLeast(Intersection(small, big), Area(small), share);
    }
  }

  /** An item is worn if and only if a detection of its class has the item's share of its own
      box inside the person's: half for helmet, vest and boots, 0.3 for gloves, 0.4 for a mask.
      The size of the person's box does not matter. */
  lemma WornIff(c: Config, detections: seq<Detection>, person: Detection, item: Item)
    ensures item in WornBy(c, detections, person) <==>
        exists d :: d in detections && RoleOf(c, d.classId) == Some(Wearable(item))
                    && Inside(d.box, person.box, match item case Helmet => 0.5 case Vest => 0.5 case Gloves => 0.3
                                                            case Mask => 0.4 case Boots => 0.5)
  {
    forall d ensures d in Of(c, detections, Wearable(item)) && ContainedIn(d.box, person.box, Threshold(item)) <==>
                     d in detections && RoleOf(c, d.classId) == Some(Wearable(item)) && Inside(d.box, person.box, Threshold(item))
    {
      OfMembers(c, detections, Wearable(item), d);
      ContainedIff(d.box, person.box, Threshold(item));
    }
    assert item in WornBy(c, detections, person) <==>
        exists d :: d in Of(c, detections, Wearable(item)) && ContainedIn(d.box, person.box, Threshold(item));
  }

  /** An item of area 1 or more wholly inside the person's box is worn, however large the
      person is. */
  lemma WhollyInsideIsWorn(c: Config, detections: seq<Detection>, person: Detection, item: Item, d: Detection)
    requires d in detections && RoleOf(c, d.classId) == Some(Wearable(item))
    requires person.box.x1 <= d.box.x1 < d.box.x2 <= person.box.x2 && person.box.y1 <= d.box.y1 < d.box.y2 <= person.box.y2
    requires (d.box.x2 - d.box.x1) * (d.box.y2 - d.box.y1) >= 1.0
    ensures item in WornBy(c, detections, person)
  {
    assert Inside(d.box, person.box, Threshold(item));
    WornIff(c, detections, person, item);
  }

  /** A check the operator enabled and the person fails. */
  predicate Missing(c: Config, worn: set<Item>, item: Item) {
    ClassOf(c, item) >= 0 && item !in worn
  }

  ghost predicate Compliant(c: Config, worn: set<Item>) {
    forall item :: !Missing(c, worn, item)
  }

  function ViolationOf(person: Detection, item: Item, trackId: int): Tracked {
    Tracked(person.box, person.score, ViolationClass(item), ViolationName(item), trackId)
  }

  function When(c: Config, worn: set<Item>, person: Detection, trackId: int, item: Item): seq<Tracked> {
    if Missing(c, worn, item) then [ViolationOf(person, item, trackId)] else []
  }

  /** What is emitted for one person, in the fixed order of the checks. */
  function Violations(c: Config, worn: set<Item>, person: Detection, trackId: int): seq<Tracked> {
    When(c, worn, person, trackId, Helmet) + When(c, worn, person, trackId, Vest) + When(c, worn, person, trackId, Gloves) +
    When(c, worn, person, trackId, Mask) + When(c, worn, person, trackId, Boots)
  }

  method Judge(c: Config, worn: set<Item>, person: Detection, trackId: int) returns (compliant: bool, emitted: seq<Tracked>)
    ensures compliant <==> Compliant(c, worn)
    ensures emitted == Violations(c, worn, person, trackId)
  {
    var helmetOk := c.helmet < 0 || Helmet in worn;
    var vestOk := c.vest < 0 || Vest in worn;
    var glovesOk := c.gloves < 0 || Gloves in worn;
    var maskOk := c.mask < 0 || Mask in worn;
    var bootsOk := c.boots < 0 || Boots in worn;
    compliant := helmetOk && vestOk && glovesOk && maskOk && bootsOk;
    assert helmetOk == !Missing(c, worn, Helmet) && vestOk == !Missing(c, worn, Vest) && glovesOk == !Missing(c, worn, Gloves);
    assert maskOk == !Missing(c, worn, Mask) && bootsOk == !Missing(c, worn, Boots);
    emitted := EmitAll(c, worn, person, trackId);
  }

  method EmitAll(c: Config, worn: set<Item>, person: Detection, trackId: int) returns (emitted: seq<Tracked>)
    ensures emitted == Violations(c, worn, person, trackId)
  {
    emitted := Emit(c.helmet >= 0 && Helmet !in worn, [], person, 406, "NoHelmet", trackId);
    assert emitted == When(c, worn, person, trackId, Helmet);
    emitted := Emit(c.vest >= 0 && Vest !in worn, emitted, person, 407, "NoVest", trackId);
    emitted := Emit(c.gloves >= 0 && Gloves !in worn, emitted, person, 408, "NoGloves", trackId);
    emitted := Emit(c.mask >= 0 && Mask !in worn, emitted, person, 409, "NoMask", trackId);
    emitted := Emit(c.boots >= 0 && Boots !in worn, emitted, person, 410, "NoBoots", trackId);
  }

  method Emit(condition: bool, before: seq<Tracked>, person: Detection, classId: int, name: string, trackId: int)
    returns (emitted: seq<Tracked>)
    ensures emitted == before + if condition then [Tracked(person.box, person.score, classId, name, trackId)] else []
  {
    emitted := before;
    if condition { emitted := emitted + [Tracked(person.box, person.score, classId, name, trackId)]; }
  }

  predicate InWhen(c: Config, worn: set<Item>, person: Detection, trackId: int, t: Tracked, item: Item) {
    t in When(c, worn, person, trackId, item)
  }

  lemma InSomeWhen(c: Config, worn: set<Item>, person: Detection, trackId: int, t: Tracked)
    ensures t in Violations(c, worn, person, trackId) <==> exists item :: InWhen(c, worn, person, trackId, t, item)
  {
    assert t in Violations(c, worn, person, trackId) <==>
        InWhen(c, worn, person, trackId, t, Helmet) || InWhen(c, worn, person, trackId, t, Vest)
        || InWhen(c, worn, person, trackId, t, Gloves) || InWhen(c, worn, person, trackId, t, Mask)
        || InWhen(c, worn, person, trackId, t, Boots);
  }

  lemma EmittedOfKind(c: Config, worn: set<Item>, person: Detection, trackId: int, item: Item)
    ensures Missing(c, worn, item) <==> ViolationOf(person, item, trackId) in Violations(c, worn, person, trackId)
  {
    var t := ViolationOf(person, item, trackId);
    InSomeWhen(c, worn, person, trackId, t);
    assert InWhen(c, worn, person, trackId, t, item) <==> Missing(c, worn, item);
    forall other | InWhen(c, worn, person, trackId, t, other) ensures other == item {
      assert t == ViolationOf(person, other, trackId);
    }
  }

  lemma EmittedIsMarked(c: Config, worn: set<Item>, person: Detection, trackId: int, t: Tracked)
    requires t in Violations(c, worn, person, trackId)
    ensures 406 <= t.classId <= 410 && t.box == person.box && t.trackId == trackId
    ensures exists item :: Missing(c, worn, item)
  {
    InSomeWhen(c, worn, person, trackId, t);
    var item :| InWhen(c, worn, person, trackId, t, item);
    assert t == ViolationOf(person, item, trackId) && Missing(c, worn, item);
  }

  /** A person is violating exactly when something is emitted for it, and a violation of a kind
      is emitted exactly when that check is enabled and failed. */
  lemma ViolatingIffEmitted(c: Config, worn: set<Item>, person: Detection, trackId: int)
    ensures !Compliant(c, worn) <==> Violations(c, worn, person, trackId) != []
    ensures forall item :: (Missing(c, worn, item) <==> ViolationOf(person, item, trackId) in Violations(c, worn, person, trackId))
    ensures forall t :: t in Violations(c, worn, person, trackId) ==> 406 <= t.classId <= 410 && t.box == person.box && t.trackId == trackId
  {
    var all := Violations(c, worn, person, trackId);
    forall item ensures Missing(c, worn, item) <==> ViolationOf(person, item, trackId) in all {
      EmittedOfKind(c, worn, person, trackId, item);
    }
    forall t | t in all ensures 406 <= t.classId <= 410 && t.box == person.box && t.trackId == trackId {
      EmittedIsMarked(c, worn, person, trackId, t);
    }
    if all != [] {
      EmittedIsMarked(c, worn, person, trackId, all[0]);
    }
  }

  /** What the five class ids and labels stand for. */
  lemma ViolationKinds(c: Config, worn: set<Item>, person: Detection, trackId: int)
    ensures var all := Violations(c, worn, person, trackId);
            && (Tracked(person.box, person.score, 406, "NoHelmet", trackId) in all <==> c.helmet >= 0 && Helmet !in worn)
            && (Tracked(person.box, person.score, 407, "NoVest", trackId) in all <==> c.vest >= 0 && Vest !in worn)
            && (Tracked(person.box, person.score, 408, "NoGloves", trackId) in all <==> c.gloves >= 0 && Gloves !in worn)
            && (Tracked(person.box, person.score, 409, "NoMask", trackId) in all <==> c.mask >= 0 && Mask !in worn)
            && (Tracked(person.box, person.score, 410, "NoBoots", trackId) in all <==> c.boots >= 0 && Boots !in worn)
    ensures |Violations(c, worn, person, trackId)| <= 5
  {
    EmittedOfKind(c, worn, person, trackId, Helmet);
    EmittedOfKind(c, worn, person, trackId, Vest);
    EmittedOfKind(c, worn, person, trackId, Gloves);
    EmittedOfKind(c, worn, person, trackId, Mask);
    EmittedOfKind(c, worn, person, trackId, Boots);
  }

  // ----- the frame -----

  function RawOf(names: int -> string): Detection -> seq<Tracked> {
    (d: Detection) => if d.classId < 0 then [] else [Tracked(d.box, d.score, 300 + d.classId, names(d.classId), -1)]
  }

  /** Raw detections join the tracked objects under class ids from 300 on. */
  method PushRaw(detections: seq<Detection>, tracked: seq<Tracked>, names: int -> string) returns (objects: seq<Tracked>)
    ensures objects == tracked + Flat(detections, RawOf(names))
  {
    objects := tracked;
    for i := 0 to |detections|
      invariant objects == tracked + Flat(detections[..i], RawOf(names))
    {
      var d := detections[i];
      FlatNext(detections, RawOf(names), i);
      if d.classId < 0 { continue; }
      objects := objects + [Tracked(d.box, d.score, 300 + d.classId, names(d.classId), -1)];
    }
    assert detections[..|detections|] == detections;
  }

  lemma {:induction false} RawIsMarked(detections: seq<Detection>, names: int -> string)
    ensures Marked(Flat(detections, RawOf(names)))
    decreases detections
  {
    if detections != [] {
      RawIsMarked(detections[..|detections| - 1], names);
    }
  }

  /** The raw objects are the detections with a class, 300 above their class id, untracked. */
  lemma {:induction false} RawObjects(detections: seq<Detection>, names: int -> string, t: Tracked)
    ensures t in Flat(detections, RawOf(names)) <==>
        exists d :: d in detections && d.classId >= 0 && t == Tracked(d.box, d.score, 300 + d.classId, names(d.classId), -1)
    decreases detections
  {
    if detections != [] {
      var before, last := detections[..|detections| - 1], detections[|detections| - 1];
      RawObjects(before, names, t);
      assert forall d :: d in detections <==> d in before || d == last;
    }
  }

  ghost function Offences(c: Config, detections: seq<Detection>, objects: seq<Tracked>): Detection -> seq<Tracked> {
    (p: Detection) => Violations(c, WornBy(c, detections, p), p, Best(objects, p.box).1)
  }

  ghost function IfCompliant(c: Config, detections: seq<Detection>): Detection -> seq<Detection> {
    (p: Detection) => if Compliant(c, WornBy(c, detections, p)) then [p] else []
  }

  ghost function CompliantPersons(c: Config, detections: seq<Detection>): seq<Detection> {
    Flat(Of(c, detections, Person), IfCompliant(c, detections))
  }

  ghost function FrameViolations(c: Config, detections: seq<Detection>, tracked: seq<Tracked>): seq<Tracked> {
    Flat(Of(c, detections, Person), Offences(c, detections, tracked))
  }

  /** One person: the matches read `objects`, which already holds what earlier persons added. */
  method PairPerson(c: Config, ghost detections: seq<Detection>, kit: Kit, ghost tracked: seq<Tracked>, ghost raw: seq<Tracked>,
                    ghost added: seq<Tracked>, objects: seq<Tracked>, person: Detection) returns (compliant: bool, emitted: seq<Tracked>)
    requires kit == KitOf(c, detections)
    requires objects == tracked + raw + added && Marked(raw) && Marked(added)
    ensures IfCompliant(c, detections)(person) == if compliant then [person] else []
    ensures emitted == Offences(c, detections, tracked)(person)
    ensures Marked(added + emitted)
  {
    var worn := Worn(c, detections, kit, person);
    var trackId := Adopt(objects, person.box);
    Associative(tracked, raw, added);
    OthersDoNotMatter(tracked, raw + added, person.box);
    compliant, emitted := Judge(c, worn, person, trackId);
    ViolatingIffEmitted(c, worn, person, trackId);
  }

  /** The pairing loop; f and g say what one person adds to the count and to the objects. */
  method PairAll(c: Config, ghost detections: seq<Detection>, persons: seq<Detection>, kit: Kit, ghost tracked: seq<Tracked>,
                 ghost raw: seq<Tracked>, start: seq<Tracked>) returns (compliant: nat, violating: nat, objects: seq<Tracked>)
    requires kit == KitOf(c, detections) && start == tracked + raw && Marked(raw)
    ensures compliant == |Flat(persons, IfCompliant(c, detections))| && compliant + violating == |persons|
    ensures objects == start + Flat(persons, Offences(c, detections, tracked))
  {
    objects := start;
    compliant, violating := 0, 0;
    ghost var added: seq<Tracked> := [];
    ghost var f, g := IfCompliant(c, detections), Offences(c, detections, tracked);
    for p := 0 to |persons|
      invariant compliant == |Flat(persons[..p], f)| && compliant + violating == p
      invariant added == Flat(persons[..p], g) && Marked(added)
      invariant objects == start + added
    {
      FlatNext(persons, f, p);
      FlatNext(persons, g, p);
      var ok, emitted := PairPerson(c, detections, kit, tracked, raw, added, objects, persons[p]);
      Associative(start, added, emitted);
      assert |f(persons[p])| == if ok then 1 else 0;
      assert emitted == g(persons[p]);
      if ok { compliant := compliant + 1; } else { violating := violating + 1; }
      objects := objects + emitted;
      added := added + emitted;
    }
    assert persons[..|persons|] == persons;
  }

  /** The whole frame.  Matches read the growing list, yet the result is stated with the list
      as it was before the loop: what the loop appends never alters a later match. */
  method PairFrame(c: Config, detections: seq<Detection>, tracked: seq<Tracked>, names: int -> string)
    returns (compliant: nat, violating: nat, objects: seq<Tracked>)
    ensures compliant == |CompliantPersons(c, detections)|
    ensures compliant + violating == |Of(c, detections, Person)|
    ensures objects == tracked + Flat(detections, RawOf(names)) + FrameViolations(c, detections, tracked)
  {
    var persons, kit := Collect(c, detections);
    objects := PushRaw(detections, tracked, names);
    RawIsMarked(detections, names);
    compliant, violating, objects := PairAll(c, detections, persons, kit, tracked, Flat(detections, RawOf(names)), objects);
  }

  lemma SameWorn(c: Config, one: seq<Detection>, other: seq<Detection>, person: Detection)
    requires multiset(one) == multiset(other)
    ensures WornBy(c, one, person) == WornBy(c, other, person)
  {
    forall item: Item, d: Detection
      ensures d in Of(c, one, Wearable(item)) <==> d in Of(c, other, Wearable(item))
    {
      OfMembers(c, one, Wearable(item), d);
      OfMembers(c, other, Wearable(item), d);
      assert d in multiset(one) <==> d in multiset(other);
    }
  }

  /** Reordering a frame's detections changes neither count, and it emits the same violations. */
  lemma OrderDoesNotMatter(c: Config, one: seq<Detection>, other: seq<Detection>, tracked: seq<Tracked>)
    requires multiset(one) == multiset(other)
    ensures |Of(c, one, Person)| == |Of(c, other, Person)|
    ensures |CompliantPersons(c, one)| == |CompliantPersons(c, other)|
    ensures multiset(FrameViolations(c, one, tracked)) == multiset(FrameViolations(c, other, tracked))
  {
    FlatPermutes(one, other, Pick(c, Person));
    var mine, yours := Of(c, one, Person), Of(c, other, Person);
    forall p ensures WornBy(c, one, p) == WornBy(c, other, p) { SameWorn(c, one, other, p); }
    FlatSame(mine, IfCompliant(c, one), IfCompliant(c, other));
    FlatSame(mine, Offences(c, one, tracked), Offences(c, other, tracked));
    FlatPermutes(mine, yours, IfCompliant(c, other));
    FlatPermutes(mine, yours, Offences(c, other, tracked));
    assert |multiset(mine)| == |multiset(yours)|;
    assert |multiset(CompliantPersons(c, one))| == |multiset(CompliantPersons(c, other))|;
  }

  // ----- class ids that shadow each other -----

  function Rank(item: Item): nat {
    match item case Helmet => 0 case Vest => 1 case Gloves => 2 case Mask => 3 case Boots => 4
  }

  /** The item's class id is also that of a role tried before it. */
  predicate Shadowed(c: Config, item: Item) {
    ClassOf(c, item) == c.person || exists earlier :: Rank(earlier) < Rank(item) && ClassOf(c, earlier) == ClassOf(c, item)
  }

  lemma ShadowedIff(c: Config, item: Item)
    requires ClassOf(c, item) >= 0
    ensures Shadowed(c, item) <==> RoleOf(c, ClassOf(c, item)) != Some(Wearable(item))
  {
    assert ClassOf(c, Helmet) == c.helmet && ClassOf(c, Vest) == c.vest && ClassOf(c, Gloves) == c.gloves;
    assert ClassOf(c, Mask) == c.mask && ClassOf(c, Boots) == c.boots;
    if Shadowed(c, item) && ClassOf(c, item) != c.person {
      var earlier :| Rank(earlier) < Rank(item) && ClassOf(c, earlier) == ClassOf(c, item);
    }
  }

  ghost predicate SomeoneComplies(c: Config) {
    exists detections: seq<Detection>, p: Detection ::
      p in Of(c, detections, Person) && Compliant(c, WornBy(c, detections, p))
  }

  /** A configuration lets anyone at all be compliant exactly when persons are detected and no
      enabled item's class id is taken by a role tried before it. */
  lemma CompliancePossibleIff(c: Config)
    ensures SomeoneComplies(c) <==> c.person >= 0 && forall item :: ClassOf(c, item) >= 0 ==> !Shadowed(c, item)
  {
    if SomeoneComplies(c) {
      var detections, p :| p in Of(c, detections, Person) && Compliant(c, WornBy(c, detections, p));
      OfMembers(c, detections, Person, p);
      forall item | ClassOf(c, item) >= 0 ensures !Shadowed(c, item) {
        assert !Missing(c, WornBy(c, detections, p), item);
        WornIsNotShadowed(c, detections, p, item);
      }
    }
    if c.person >= 0 && forall item :: ClassOf(c, item) >= 0 ==> !Shadowed(c, item) {
      FullyEquipped(c);
    }
  }

  lemma WornIsNotShadowed(c: Config, detections: seq<Detection>, person: Detection, item: Item)
    requires ClassOf(c, item) >= 0 && item in WornBy(c, detections, person)
    ensures !Shadowed(c, item)
  {
    var d :| d in Of(c, detections, Wearable(item)) && ContainedIn(d.box, person.box, Threshold(item));
    OfMembers(c, detections, Wearable(item), d);
    ShadowedIff(c, item);
  }

  /** A person whose box every item fills. */
  lemma FullyEquipped(c: Config)
    requires c.person >= 0 && forall item :: ClassOf(c, item) >= 0 ==> !Shadowed(c, item)
    ensures SomeoneComplies(c)
  {
    var box := Box(0.0, 0.0, 1.0, 1.0);
    var p := Detection(box, 1.0, c.person);
    var detections := [p, Detection(box, 1.0, c.helmet), Detection(box, 1.0, c.vest), Detection(box, 1.0, c.gloves),
                       Detection(box, 1.0, c.mask), Detection(box, 1.0, c.boots)];
    OfMembers(c, detections, Person, p);
    forall item ensures !Missing(c, WornBy(c, detections, p), item) {
      if ClassOf(c, item) >= 0 {
        ShadowedIff(c, item);
        var d := Detection(box, 1.0, ClassOf(c, item));
        assert d in detections;
        OfMembers(c, detections, Wearable(item), d);
        assert Intersection(box, box) == 1.0 && Area(box) == 1.0;
        assert ContainedIn(d.box, p.box, Threshold(item));
      }
    }
    assert Compliant(c, WornBy(c, detections, p));
  }
}
