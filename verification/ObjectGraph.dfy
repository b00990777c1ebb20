/** The session's object map while rows arrive, dbsimplebase.c:199-310: what
    each step does to it and the invariant every step keeps.

    A data block is known by the key of the object that owns it, so a pointer to
    a block is `Some(key)` and NULL is `None`. */
module ObjectGraph {
  import opened Wrappers

  /** An object's identity, dbsimplebase.c:54-73: the numeric id counts only
      without a name. `def` stands for the definition's address. */
  datatype KeyId = Id(n: int) | Name(s: string)
  datatype Key = Key(def: nat, id: KeyId)

  datatype ObjectState = OBJNULL | OBJUNKNOWN | OBJNEW | OBJCLEAN | OBJREMOVED | OBJMODIFIED

  /** A column of a row, and the contents of a scalar field. */
  datatype Value = Null | Integer(n: int) | Text(s: string)

  /** A reference waiting for its target: to be stored in a field of `source`,
      or to be added to the target's collection at `offset`. */
  datatype Patch = Patch(back: bool, source: Key, offset: int)

  datatype Data = Data(plain: map<int, Value>, refs: map<int, Option<Key>>, lists: map<int, seq<Key>>)

  datatype Object = Object(data: Option<Data>, state: ObjectState, revision: int, patches: seq<Patch>)

  type Objects = map<Key, Object>

  /** `calloc` */
  const ZEROED := Data(map[], map[], map[])

  // ----- what can be seen of the map

  predicate Fetched(m: Objects, k: Key) {
    k in m && m[k].data.Some?
  }

  function PlainOf(m: Objects, k: Key, offset: int): Value {
    if Fetched(m, k) && offset in m[k].data.value.plain then m[k].data.value.plain[offset] else Integer(0)
  }

  function RefOf(m: Objects, k: Key, offset: int): Option<Key> {
    if Fetched(m, k) && offset in m[k].data.value.refs then m[k].data.value.refs[offset] else None
  }

  function ListOf(m: Objects, k: Key, offset: int): seq<Key> {
    if Fetched(m, k) && offset in m[k].data.value.lists then m[k].data.value.lists[offset] else []
  }

  function PatchesOf(m: Objects, k: Key): seq<Patch> {
    if k in m then m[k].patches else []
  }

  /** What the row of an object carries apart from its links. */
  datatype Face = Face(state: ObjectState, revision: int)

  function FaceOf(m: Objects, k: Key): Face {
    if k in m then Face(m[k].state, m[k].revision) else Face(OBJNULL, -1)
  }

  // ----- what the functions do to the map

  /** dbsimplebase.c:199-235 */
  function Get(m: Objects, state: ObjectState, k: Key): Objects {
    if k !in m then
      if state == OBJNULL then m
      else m[k := Object(if state != OBJUNKNOWN then Some(ZEROED) else None, state, -1, [])]
    else if m[k].data.None? && state != OBJUNKNOWN then
      m[k := m[k].(data := Some(ZEROED), state := state)]
    else m
  }

  function SetPlain(m: Objects, k: Key, offset: int, v: Value): Objects
    requires Fetched(m, k)
  {
    var d := m[k].data.value;
    m[k := m[k].(data := Some(d.(plain := d.plain[offset := v])))]
  }

  function SetRevision(m: Objects, k: Key, revision: int): Objects
    requires Fetched(m, k)
  {
    m[k := m[k].(revision := revision)]
  }

  function SetRef(m: Objects, k: Key, offset: int, p: Option<Key>): Objects
    requires Fetched(m, k)
  {
    var d := m[k].data.value;
    m[k := m[k].(data := Some(d.(refs := d.refs[offset := p])))]
  }

  function Append(m: Objects, k: Key, offset: int, source: Key): Objects
    requires Fetched(m, k)
  {
    var d := m[k].data.value;
    m[k := m[k].(data := Some(d.(lists := d.lists[offset := ListOf(m, k, offset) + [source]])))]
  }

  /** dbsimplebase.c:237-245 */
  function Subscribe(m: Objects, k: Key, p: Patch): Objects
    requires k in m
  {
    m[k := m[k].(patches := [p] + m[k].patches)]
  }

  /** dbsimplebase.c:306 */
  function DropPatch(m: Objects, k: Key): Objects
    requires k in m && m[k].patches != []
  {
    m[k := m[k].(patches := m[k].patches[1..])]
  }

  // ----- what has been asked for so far

  /** A row's field naming another object. */
  datatype Link = Link(back: bool, source: Key, offset: int, target: Key)

  /** Every link starts at a fetched object, and a reference field has one target. */
  ghost predicate LinksOk(m: Objects, links: seq<Link>) {
    && (forall l :: l in links ==> Fetched(m, l.source))
    && (forall l, l' ::
          l in links && l' in links && !l.back && !l'.back && l.source == l'.source && l.offset == l'.offset ==>
            l == l')
  }

  /** Pending patches stand for links; fetched objects are clean, the others
      unknown. */
  ghost predicate PatchesOk(m: Objects, links: seq<Link>) {
    && (forall k, p :: p in PatchesOf(m, k) ==> Link(p.back, p.source, p.offset, k) in links)
    && (forall k :: k in m ==> FaceOf(m, k).state == if Fetched(m, k) then OBJCLEAN else OBJUNKNOWN)
  }

  /** A linked reference holds its target, or is NULL and waits for it, or is
      NULL because the target is among the `done` ones and was never fetched. */
  ghost predicate RefOk(m: Objects, l: Link, done: set<Key>) {
    || (RefOf(m, l.source, l.offset) == Some(l.target) && Fetched(m, l.target))
    || (RefOf(m, l.source, l.offset) == None && Patch(false, l.source, l.offset) in PatchesOf(m, l.target))
    || (RefOf(m, l.source, l.offset) == None && l.target in done && !Fetched(m, l.target))
  }

  ghost predicate RefsOk(m: Objects, links: seq<Link>, done: set<Key>) {
    && (forall l :: l in links && !l.back ==> RefOk(m, l, done))
    && (forall k, offset :: RefOf(m, k, offset).Some? ==> Link(false, k, offset, RefOf(m, k, offset).value) in links)
  }

  /** How often `s` is in the collection of `k` or waits to be added to it. */
  ghost function Held(m: Objects, k: Key, offset: int, s: Key): nat {
    multiset(PatchesOf(m, k))[Patch(true, s, offset)] + multiset(ListOf(m, k, offset))[s]
  }

  ghost function Named(links: seq<Link>, k: Key, offset: int, s: Key): nat {
    multiset(links)[Link(true, s, offset, k)]
  }

  ghost predicate ListsOk(m: Objects, links: seq<Link>, done: set<Key>) {
    forall k, offset, s :: Fetched(m, k) || k !in done ==> Held(m, k, offset, s) == Named(links, k, offset, s)
  }

  ghost predicate Inv(m: Objects, links: seq<Link>, done: set<Key>) {
    LinksOk(m, links) && PatchesOk(m, links) && RefsOk(m, links, done) && ListsOk(m, links, done)
  }

  // ----- each step, seen through the observers

  /** Everything but the parts named in the other arguments is as it was. */
  ghost predicate SameFetched(m: Objects, m': Objects) {
    m'.Keys == m.Keys && forall k :: Fetched(m', k) <==> Fetched(m, k)
  }

  ghost predicate SameRefs(m: Objects, m': Objects) {
    forall k, offset :: RefOf(m', k, offset) == RefOf(m, k, offset)
  }

  ghost predicate SameLists(m: Objects, m': Objects) {
    forall k, offset :: ListOf(m', k, offset) == ListOf(m, k, offset)
  }

  ghost predicate SamePatches(m: Objects, m': Objects) {
    forall k :: PatchesOf(m', k) == PatchesOf(m, k)
  }

  ghost predicate SameStates(m: Objects, m': Objects) {
    forall k :: k in m ==> FaceOf(m', k).state == FaceOf(m, k).state
  }

  ghost predicate SamePlain(m: Objects, m': Objects) {
    && (forall k, offset :: PlainOf(m', k, offset) == PlainOf(m, k, offset))
    && (forall k :: k in m ==> FaceOf(m', k) == FaceOf(m, k))
  }

  lemma GetUnknownSeen(m: Objects, k: Key)
    ensures var m' := Get(m, OBJUNKNOWN, k);
            && m'.Keys == m.Keys + {k} && (forall x :: Fetched(m', x) <==> Fetched(m, x))
            && SameRefs(m, m') && SameLists(m, m') && SamePatches(m, m') && SamePlain(m, m')
            && (k !in m ==> FaceOf(m', k).state == OBJUNKNOWN && !Fetched(m', k))
  {
  }

  lemma GetCleanSeen(m: Objects, k: Key)
    requires !Fetched(m, k)
    ensures var m' := Get(m, OBJCLEAN, k);
            && m'.Keys == m.Keys + {k} && (forall x :: Fetched(m', x) <==> Fetched(m, x) || x == k)
            && SameRefs(m, m') && SameLists(m, m') && SamePatches(m, m')
            && (forall x, o :: PlainOf(m', x, o) == PlainOf(m, x, o))
            && (forall x :: x in m && x != k ==> FaceOf(m', x) == FaceOf(m, x))
            && FaceOf(m', k).state == OBJCLEAN
  {
  }

  lemma SetPlainSeen(m: Objects, k: Key, offset: int, v: Value)
    requires Fetched(m, k)
    ensures var m' := SetPlain(m, k, offset, v);
            && SameFetched(m, m') && SameRefs(m, m') && SameLists(m, m') && SamePatches(m, m')
            && (forall x :: x in m ==> FaceOf(m', x) == FaceOf(m, x))
            && (forall x, o :: PlainOf(m', x, o) == if x == k && o == offset then v else PlainOf(m, x, o))
  {
  }

  lemma SetRevisionSeen(m: Objects, k: Key, revision: int)
    requires Fetched(m, k)
    ensures var m' := SetRevision(m, k, revision);
            && SameFetched(m, m') && SameRefs(m, m') && SameLists(m, m') && SamePatches(m, m')
            && (forall x :: x in m ==>
                  FaceOf(m', x) == if x == k then Face(FaceOf(m, k).state, revision) else FaceOf(m, x))
            && (forall x, o :: PlainOf(m', x, o) == PlainOf(m, x, o))
  {
  }

  lemma SetRefSeen(m: Objects, k: Key, offset: int, p: Option<Key>)
    requires Fetched(m, k)
    ensures var m' := SetRef(m, k, offset, p);
            && SameFetched(m, m') && SameLists(m, m') && SamePatches(m, m') && SamePlain(m, m')
            && (forall x, o :: RefOf(m', x, o) == if x == k && o == offset then p else RefOf(m, x, o))
  {
  }

  lemma AppendSeen(m: Objects, k: Key, offset: int, source: Key)
    requires Fetched(m, k)
    ensures var m' := Append(m, k, offset, source);
            && SameFetched(m, m') && SameRefs(m, m') && SamePatches(m, m') && SamePlain(m, m')
            && (forall x, o :: ListOf(m', x, o) ==
                  if x == k && o == offset then ListOf(m, k, offset) + [source] else ListOf(m, x, o))
  {
  }

  lemma SubscribeSeen(m: Objects, k: Key, p: Patch)
    requires k in m
    ensures var m' := Subscribe(m, k, p);
            && SameFetched(m, m') && SameRefs(m, m') && SameLists(m, m') && SamePlain(m, m')
            && (forall x :: PatchesOf(m', x) == if x == k then [p] + PatchesOf(m, k) else PatchesOf(m, x))
  {
  }

  lemma DropPatchSeen(m: Objects, k: Key)
    requires k in m && m[k].patches != []
    ensures var m' := DropPatch(m, k);
            && SameFetched(m, m') && SameRefs(m, m') && SameLists(m, m') && SamePlain(m, m')
            && (forall x :: PatchesOf(m', x) == if x == k then PatchesOf(m, k)[1..] else PatchesOf(m, x))
  {
  }

  // ----- every step keeps the invariant

  lemma Kept(m: Objects, m': Objects, links: seq<Link>, done: set<Key>)
    requires Inv(m, links, done)
    requires SameFetched(m, m') && SameRefs(m, m') && SameLists(m, m') && SamePatches(m, m') && SameStates(m, m')
    ensures Inv(m', links, done)
  {
    hide Fetched, RefOf, ListOf, PatchesOf, FaceOf, Named;
  }

  /** Reaching for an object that may not be known yet. */
  lemma GetUnknownKeeps(m: Objects, links: seq<Link>, k: Key)
    requires Inv(m, links, {})
    ensures Inv(Get(m, OBJUNKNOWN, k), links, {})
  {
    GetUnknownSeen(m, k);
    hide Get, Fetched, RefOf, ListOf, PatchesOf, FaceOf, Named;
  }

  /** A row's own object, which may have been named before. */
  lemma GetCleanKeeps(m: Objects, links: seq<Link>, k: Key)
    requires Inv(m, links, {}) && !Fetched(m, k)
    ensures Inv(Get(m, OBJCLEAN, k), links, {})
  {
    GetCleanSeen(m, k);
    hide Get, Fetched, RefOf, ListOf, PatchesOf, FaceOf, Named;
  }

  // a new link, of an object that is fetched

  lemma LinkKeepsLinks(m: Objects, m': Objects, links: seq<Link>, l: Link)
    requires LinksOk(m, links) && (forall x :: Fetched(m', x) <==> Fetched(m, x)) && Fetched(m, l.source)
    requires forall l' :: l' in links && !l'.back && l'.source == l.source && l'.offset == l.offset ==> l.back
    ensures LinksOk(m', links + [l])
  {
    hide Fetched;
  }

  lemma NamedOneMore(links: seq<Link>, l: Link)
    ensures forall x :: x in links + [l] <==> x in links || x == l
    ensures forall k, offset, s ::
      Named(links + [l], k, offset, s) == Named(links, k, offset, s) + if l == Link(true, s, offset, k) then 1 else 0
  {
    assert multiset(links + [l]) == multiset(links) + multiset{l};
  }

  lemma SetRefRefs(m: Objects, m': Objects, links: seq<Link>, l: Link)
    requires RefsOk(m, links, {}) && !l.back && SameFetched(m, m') && SamePatches(m, m') && Fetched(m, l.target)
    requires forall x, o ::
               RefOf(m', x, o) == if x == l.source && o == l.offset then Some(l.target) else RefOf(m, x, o)
    requires forall l' :: l' in links && !l'.back && l'.source == l.source ==> l'.offset != l.offset
    ensures RefsOk(m', links + [l], {})
  {
    NamedOneMore(links, l);
    hide Fetched, RefOf, ListOf, PatchesOf, FaceOf, Named;
    forall l' | l' in links && !l'.back ensures RefOk(m', l', {}) {
      assert RefOk(m, l', {});
    }
  }

  /** The field is set at once. */
  lemma SetRefKeeps(m: Objects, links: seq<Link>, source: Key, offset: int, target: Key)
    requires Inv(m, links, {}) && Fetched(m, source) && Fetched(m, target)
    requires forall l :: l in links && !l.back && l.source == source ==> l.offset != offset
    ensures Inv(SetRef(m, source, offset, Some(target)), links + [Link(false, source, offset, target)], {})
  {
    var l, m' := Link(false, source, offset, target), SetRef(m, source, offset, Some(target));
    SetRefSeen(m, source, offset, Some(target));
    NamedOneMore(links, l);
    LinkKeepsLinks(m, m', links, l);
    SetRefRefs(m, m', links, l);
    hide SetRef, Fetched, RefOf, ListOf, PatchesOf, FaceOf, LinksOk, RefsOk, Named;
    assert PatchesOk(m', links + [l]);
  }

  /** The collection grows at once. */
  lemma AppendKeeps(m: Objects, links: seq<Link>, source: Key, offset: int, target: Key)
    requires Inv(m, links, {}) && Fetched(m, source) && Fetched(m, target)
    ensures Inv(Append(m, target, offset, source), links + [Link(true, source, offset, target)], {})
  {
    hide Append, Fetched, RefOf, ListOf, PatchesOf, FaceOf, LinksOk, Named, RefsOk, PatchesOk, ListsOk;
    var l, m' := Link(true, source, offset, target), Append(m, target, offset, source);
    AppendSeen(m, target, offset, source);
    LinkKeepsLinks(m, m', links, l);
    AppendPatches(m, m', links, l);
    AppendLists(m, m', links, l);
  }

  lemma AppendPatches(m: Objects, m': Objects, links: seq<Link>, l: Link)
    requires PatchesOk(m, links) && RefsOk(m, links, {}) && l.back
    requires SameFetched(m, m') && SamePlain(m, m') && SamePatches(m, m') && SameRefs(m, m')
    ensures PatchesOk(m', links + [l]) && RefsOk(m', links + [l], {})
  {
    hide Fetched, RefOf, PatchesOf, FaceOf, PlainOf, Named;
    NamedOneMore(links, l);
    forall l' | l' in links && !l'.back ensures RefOk(m', l', {}) {
      assert RefOk(m, l', {});
    }
  }

  lemma AppendLists(m: Objects, m': Objects, links: seq<Link>, l: Link)
    requires ListsOk(m, links, {}) && l.back && SamePatches(m, m')
    requires forall x, o :: ListOf(m', x, o) ==
               if x == l.target && o == l.offset then ListOf(m, l.target, o) + [l.source] else ListOf(m, x, o)
    ensures ListsOk(m', links + [l], {})
  {
    hide Fetched, PatchesOf, ListOf, Named, Held;
    NamedOneMore(links, l);
    HeldAppend(m, m', l.target, l.offset, l.source);
  }

  lemma HeldSubscribe(m: Objects, m': Objects, k: Key, q: Patch)
    requires SameLists(m, m')
    requires forall x :: PatchesOf(m', x) == if x == k then [q] + PatchesOf(m, x) else PatchesOf(m, x)
    ensures forall x, o, s ::
      Held(m', x, o, s) == Held(m, x, o, s) + if x == k && q == Patch(true, s, o) then 1 else 0
  {
    hide ListOf, PatchesOf;
    assert multiset([q] + PatchesOf(m, k)) == multiset{q} + multiset(PatchesOf(m, k));
  }

  lemma HeldDrop(m: Objects, m': Objects, k: Key)
    requires PatchesOf(m, k) != [] && SameLists(m, m')
    requires forall x :: PatchesOf(m', x) == if x == k then PatchesOf(m, k)[1..] else PatchesOf(m, x)
    ensures forall x, o, s ::
      Held(m', x, o, s) + (if x == k && PatchesOf(m, k)[0] == Patch(true, s, o) then 1 else 0) == Held(m, x, o, s)
  {
    FirstPatch(m, k);
    hide ListOf, PatchesOf;
  }

  lemma FirstPatch(m: Objects, k: Key)
    requires PatchesOf(m, k) != []
    ensures var ps := PatchesOf(m, k);
            && multiset(ps) == multiset{ps[0]} + multiset(ps[1..])
            && (forall p :: p in ps <==> p == ps[0] || p in ps[1..])
  {
    var ps := PatchesOf(m, k);
    assert ps == [ps[0]] + ps[1..];
  }

  lemma HeldAppend(m: Objects, m': Objects, k: Key, offset: int, source: Key)
    requires SamePatches(m, m')
    requires forall x, o :: ListOf(m', x, o) == if x == k && o == offset then ListOf(m, k, o) + [source] else ListOf(m, x, o)
    ensures forall x, o, s ::
      Held(m', x, o, s) == Held(m, x, o, s) + if x == k && o == offset && s == source then 1 else 0
  {
    hide ListOf, PatchesOf;
  }

  lemma SubscribeRefs(m: Objects, m': Objects, links: seq<Link>, l: Link)
    requires RefsOk(m, links, {}) && SameFetched(m, m') && SameRefs(m, m')
    requires var p := Patch(l.back, l.source, l.offset);
             forall x :: PatchesOf(m', x) == if x == l.target then [p] + PatchesOf(m, x) else PatchesOf(m, x)
    requires !l.back ==> forall l' :: l' in links && !l'.back && l'.source == l.source ==> l'.offset != l.offset
    ensures RefsOk(m', links + [l], {})
  {
    NamedOneMore(links, l);
    hide Fetched, RefOf, ListOf, PatchesOf, FaceOf, Named;
    forall l' | l' in links && !l'.back ensures RefOk(m', l', {}) {
      assert RefOk(m, l', {});
    }
    if !l.back {
      assert RefOk(m', l, {});
    }
  }

  /** The link waits for its target. */
  lemma SubscribeKeeps(m: Objects, links: seq<Link>, l: Link)
    requires Inv(m, links, {}) && Fetched(m, l.source) && l.target in m
    requires !l.back ==> forall l' :: l' in links && !l'.back && l'.source == l.source ==> l'.offset != l.offset
    ensures Inv(Subscribe(m, l.target, Patch(l.back, l.source, l.offset)), links + [l], {})
  {
    hide Subscribe, Fetched, RefOf, ListOf, PatchesOf, FaceOf, LinksOk, RefsOk, ListsOk, PatchesOk, Named, Held;
    var p := Patch(l.back, l.source, l.offset);
    var m' := Subscribe(m, l.target, p);
    SubscribeSeen(m, l.target, p);
    LinkKeepsLinks(m, m', links, l);
    SubscribeRefs(m, m', links, l);
    SubscribePatches(m, m', links, l);
    SubscribeLists(m, m', links, l);
  }

  lemma SubscribePatches(m: Objects, m': Objects, links: seq<Link>, l: Link)
    requires PatchesOk(m, links) && SameFetched(m, m') && SamePlain(m, m')
    requires var p := Patch(l.back, l.source, l.offset);
             forall x :: PatchesOf(m', x) == if x == l.target then [p] + PatchesOf(m, x) else PatchesOf(m, x)
    ensures PatchesOk(m', links + [l])
  {
    hide Fetched, PatchesOf, FaceOf, PlainOf, Named;
    NamedOneMore(links, l);
  }

  lemma SubscribeLists(m: Objects, m': Objects, links: seq<Link>, l: Link)
    requires ListsOk(m, links, {}) && SameLists(m, m')
    requires var p := Patch(l.back, l.source, l.offset);
             forall x :: PatchesOf(m', x) == if x == l.target then [p] + PatchesOf(m, x) else PatchesOf(m, x)
    ensures ListsOk(m', links + [l], {})
  {
    hide Fetched, PatchesOf, ListOf, Named, Held;
    NamedOneMore(links, l);
    HeldSubscribe(m, m', l.target, Patch(l.back, l.source, l.offset));
  }

  /** A row without a value for a reference. */
  lemma ClearRefKeeps(m: Objects, links: seq<Link>, source: Key, offset: int)
    requires Inv(m, links, {}) && Fetched(m, source)
    requires forall l :: l in links && !l.back && l.source == source ==> l.offset != offset
    ensures Inv(SetRef(m, source, offset, None), links, {})
  {
    SetRefSeen(m, source, offset, None);
    hide SetRef, Fetched, RefOf, ListOf, PatchesOf, FaceOf, Named;
    var m' := SetRef(m, source, offset, None);
    forall l | l in links && !l.back ensures RefOk(m', l, {}) {
      assert RefOk(m, l, {});
    }
  }

  // ----- the first backpatch of an object, dbsimplebase.c:286-308

  /** What the loop body does before it drops the patch. */
  function Resolve(m: Objects, k: Key, p: Patch): Objects
    requires k in m && Fetched(m, p.source)
  {
    if !p.back then SetRef(m, p.source, p.offset, if m[k].data.Some? then Some(k) else None)
    else if m[k].data.Some? then Append(m, k, p.offset, p.source)
    else m
  }

  lemma ResolveRef(m: Objects, m': Objects, links: seq<Link>, done: set<Key>, k: Key, source: Key, offset: int)
    requires LinksOk(m, links) && RefsOk(m, links, done) && k in done
    requires Link(false, source, offset, k) in links
    requires forall x :: Fetched(m', x) <==> Fetched(m, x)
    requires forall x, o :: RefOf(m', x, o) ==
               if x == source && o == offset then (if Fetched(m, k) then Some(k) else None) else RefOf(m, x, o)
    requires forall x, p :: p in PatchesOf(m, x) && !(x == k && p == Patch(false, source, offset)) ==> p in PatchesOf(m', x)
    ensures RefsOk(m', links, done)
  {
    hide Fetched, RefOf, PatchesOf;
    forall l | l in links && !l.back ensures RefOk(m', l, done) {
      assert RefOk(m, l, done);
    }
  }

  lemma PatchesKept(m: Objects, m': Objects, links: seq<Link>, done: set<Key>)
    requires PatchesOk(m, links) && SameFetched(m, m') && SamePlain(m, m')
    requires forall x, p :: p in PatchesOf(m', x) ==> p in PatchesOf(m, x)
    ensures PatchesOk(m', links)
  {
    hide Fetched, RefOf, ListOf, PatchesOf;
  }

  lemma ResolveRefKeeps(m: Objects, links: seq<Link>, done: set<Key>, k: Key, source: Key, offset: int)
    requires Inv(m, links, done) && k in done && Fetched(m, source)
    requires PatchesOf(m, k) != [] && PatchesOf(m, k)[0] == Patch(false, source, offset)
    requires Link(false, source, offset, k) in links
    ensures var m' := DropPatch(Resolve(m, k, Patch(false, source, offset)), k);
            Inv(m', links, done) && SameFetched(m, m') && SamePlain(m, m') && PatchesDropped(m, m', k)
  {
    hide RefOf, ListOf, FaceOf, Named, Held;
    var m' := DropPatch(Resolve(m, k, Patch(false, source, offset)), k);
    hide PatchesOf, Fetched, Resolve, SetRef, DropPatch;
    ResolveRefSeen(m, k, source, offset);
    FirstPatch(m, k);
    ResolveRef(m, m', links, done, k, source, offset);
    PatchesKept(m, m', links, done);
    ResolveBackLists(m, m', links, done, k);
    hide RefsOk, PatchesOk, ListsOk;
  }

  /** The field that waited holds the object, or stays NULL when there is none. */
  lemma ResolveRefSeen(m: Objects, k: Key, source: Key, offset: int)
    requires Fetched(m, source) && PatchesOf(m, k) != [] && PatchesOf(m, k)[0] == Patch(false, source, offset)
    ensures var m' := DropPatch(Resolve(m, k, Patch(false, source, offset)), k);
            && SameFetched(m, m') && SamePlain(m, m') && PatchesDropped(m, m', k)
            && (forall x, o :: RefOf(m', x, o) ==
                  if x == source && o == offset then (if Fetched(m, k) then Some(k) else None) else RefOf(m, x, o))
            && forall x, o, s :: Held(m', x, o, s) == Held(m, x, o, s)
  {
    var v := if Fetched(m, k) then Some(k) else None;
    var m1 := SetRef(m, source, offset, v);
    assert m1 == Resolve(m, k, Patch(false, source, offset));
    SetRefSeen(m, source, offset, v);
    DropPatchSeen(m1, k);
    HeldDrop(m1, DropPatch(m1, k), k);
    HeldSame(m, m1);
    hide SetRef, DropPatch, RefOf, ListOf, PatchesOf, FaceOf, Fetched, Resolve, Held;
  }

  lemma HeldSame(m: Objects, m': Objects)
    requires SamePatches(m, m') && SameLists(m, m')
    ensures forall x, o, s :: Held(m', x, o, s) == Held(m, x, o, s)
  {
  }

  /** A source that waits moves into the collection, or is forgotten when there is none. */
  lemma ResolveBackSeen(m: Objects, k: Key, source: Key, offset: int)
    requires Fetched(m, source) && PatchesOf(m, k) != [] && PatchesOf(m, k)[0] == Patch(true, source, offset)
    ensures var m' := DropPatch(Resolve(m, k, Patch(true, source, offset)), k);
            && SameFetched(m, m') && SameRefs(m, m') && SamePlain(m, m') && PatchesDropped(m, m', k)
            && forall x, o, s :: x != k || Fetched(m, k) ==> Held(m', x, o, s) == Held(m, x, o, s)
  {
    var m1 := Resolve(m, k, Patch(true, source, offset));
    if Fetched(m, k) {
      AppendSeen(m, k, offset, source);
      HeldAppend(m, m1, k, offset, source);
    }
    DropPatchSeen(m1, k);
    HeldDrop(m1, DropPatch(m1, k), k);
    hide Append, DropPatch, RefOf, ListOf, PatchesOf, FaceOf, Fetched, Resolve, Held;
  }

  lemma ResolveBackKeeps(m: Objects, links: seq<Link>, done: set<Key>, k: Key, source: Key, offset: int)
    requires Inv(m, links, done) && k in done && Fetched(m, source)
    requires PatchesOf(m, k) != [] && PatchesOf(m, k)[0] == Patch(true, source, offset)
    ensures var m' := DropPatch(Resolve(m, k, Patch(true, source, offset)), k);
            Inv(m', links, done) && SameFetched(m, m') && SamePlain(m, m') && PatchesDropped(m, m', k)
  {
    var m' := DropPatch(Resolve(m, k, Patch(true, source, offset)), k);
    ResolveBackSeen(m, k, source, offset);
    FirstPatch(m, k);
    hide Append, DropPatch, RefOf, ListOf, PatchesOf, FaceOf, Named, Fetched, Resolve, Held;
    ResolveBackRefs(m, m', links, done);
    PatchesKept(m, m', links, done);
    ResolveBackLists(m, m', links, done, k);
    hide RefsOk, PatchesOk, ListsOk;
  }

  lemma ResolveBackLists(m: Objects, m': Objects, links: seq<Link>, done: set<Key>, k: Key)
    requires ListsOk(m, links, done) && k in done && SameFetched(m, m')
    requires forall x, o, s :: x != k || Fetched(m, k) ==> Held(m', x, o, s) == Held(m, x, o, s)
    ensures ListsOk(m', links, done)
  {
    hide Fetched, Held, Named;
  }

  lemma ResolveBackRefs(m: Objects, m': Objects, links: seq<Link>, done: set<Key>)
    requires RefsOk(m, links, done) && (forall x :: Fetched(m', x) <==> Fetched(m, x)) && SameRefs(m, m')
    requires forall x, p :: p in PatchesOf(m, x) && !p.back ==> p in PatchesOf(m', x)
    ensures RefsOk(m', links, done)
  {
    hide Fetched, RefOf, PatchesOf;
    forall l | l in links && !l.back ensures RefOk(m', l, done) {
      assert RefOk(m, l, done);
    }
  }

  ghost predicate PatchesDropped(m: Objects, m': Objects, k: Key)
    requires PatchesOf(m, k) != []
  {
    forall x :: PatchesOf(m', x) == if x == k then PatchesOf(m, k)[1..] else PatchesOf(m, x)
  }

  lemma ResolveKeeps(m: Objects, links: seq<Link>, done: set<Key>, k: Key)
    requires Inv(m, links, done) && PatchesOf(m, k) != [] && k in done
    ensures var p := PatchesOf(m, k)[0];
            && Fetched(m, p.source)
            && Inv(DropPatch(Resolve(m, k, p), k), links, done)
            && SameFetched(m, DropPatch(Resolve(m, k, p), k))
            && SamePlain(m, DropPatch(Resolve(m, k, p), k))
            && PatchesDropped(m, DropPatch(Resolve(m, k, p), k), k)
  {
    var p := PatchesOf(m, k)[0];
    assert p in PatchesOf(m, k);
    assert Link(p.back, p.source, p.offset, k) in links;
    if !p.back {
      ResolveRefKeeps(m, links, done, k, p.source, p.offset);
    } else {
      ResolveBackKeeps(m, links, done, k, p.source, p.offset);
    }
  }

  lemma MoreDone(m: Objects, links: seq<Link>, done: set<Key>, done': set<Key>)
    requires Inv(m, links, done) && done <= done'
    ensures Inv(m, links, done')
  {
    hide Fetched, RefOf, PatchesOf, Held, Named, FaceOf;
  }

  /** Once nothing waits: a field holds a target exactly if a link names it and
      it was fetched, and a collection holds each source as often as links name it. */
  lemma NothingWaits(m: Objects, links: seq<Link>, done: set<Key>)
    requires Inv(m, links, done) && forall k :: PatchesOf(m, k) == []
    ensures forall k, o, t :: RefOf(m, k, o) == Some(t) <==> Link(false, k, o, t) in links && Fetched(m, t)
    ensures forall k, o, x :: Fetched(m, k) ==> multiset(ListOf(m, k, o))[x] == multiset(links)[Link(true, x, o, k)]
  {
    hide Fetched, RefOf, PatchesOf, ListOf, FaceOf;
    forall k, o, t ensures RefOf(m, k, o) == Some(t) <==> Link(false, k, o, t) in links && Fetched(m, t) {
      if RefOf(m, k, o) == Some(t) {
        assert RefOk(m, Link(false, k, o, t), done);
      } else if Link(false, k, o, t) in links {
        assert RefOk(m, Link(false, k, o, t), done);
      }
    }
    forall k, o, x | Fetched(m, k) ensures multiset(ListOf(m, k, o))[x] == multiset(links)[Link(true, x, o, k)] {
      assert Held(m, k, o, x) == Named(links, k, o, x);
    }
  }
}
