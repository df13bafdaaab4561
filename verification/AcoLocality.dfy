/**
 A switch works on one share stack and at most two coroutines.  What the methods of `AcoRuntime` are proved
 to do to those records is therefore what `Step` does to the whole machine, and nothing else in it changes.
 */
module AcoLocality {
  import opened Options
  import opened AcoSpec
  import opened AcoInvariant

  /** `c` and `o` share a stack that no third coroutine owns, and no third coroutine runs. */
  ghost predicate Local<C, S>(s: State<C, S>, c: C, o: C) {
    && c in s.cos && o in s.cos && s.cos[o].share == s.cos[c].share && s.cos[c].share in s.shares
    && s.shares[s.cos[c].share].owner in {None, Some(c), Some(o)}
    && s.cur in {None, Some(c), Some(o)}
  }

  /** The machine with nothing but these two coroutines and their stack. */
  ghost function Part<C, S>(s: State<C, S>, c: C, o: C): State<C, S>
    requires Local(s, c, o)
  {
    var i := s.cos[c].share;
    State(map[i := s.shares[i]], map[o := s.cos[o], c := s.cos[c]], s.cur, s.mainReg, s.cpu)
  }

  /** `s` with the part on `c` and `o` replaced by `t`. */
  ghost function Put<C, S>(s: State<C, S>, c: C, o: C, t: State<C, S>): State<C, S> {
    State(s.shares + t.shares, (s.cos - {c, o}) + t.cos, t.cur, t.mainReg, t.cpu)
  }

  lemma PartHasInv<C, S>(s: State<C, S>, c: C, o: C)
    requires Inv(s) && Local(s, c, o)
    ensures Inv(Part(s, c, o)) && CoValid(s, c) && CoValid(s, o)
    ensures CoValid(Part(s, c, o), c) && CoValid(Part(s, c, o), o)
  {
    hide CoOn;
    var v := Part(s, c, o);
    assert CoValid(s, c) && CoValid(s, o) && OwnerValid(s, s.cos[c].share);
    assert v.cos[c] == s.cos[c] && v.cos[o] == s.cos[o];
  }

  /** The operations of `c` that `AcoRuntime` has a method for. */
  ghost predicate Switches<C, S>(s: State<C, S>, op: Op<C, S>, c: C) {
    op == Resume(c) || op == Destroy(c) || (s.cur == Some(c) && (op == Yield || op == Exit))
  }

  /** Changing the stack, the coroutine `c` and the registers of the part changes the same in the machine. */
  lemma PutChanged<C, S>(s: State<C, S>, c: C, o: C, sh: Share<C>, co: Co<S>, t: State<C, S>)
    requires Local(s, c, o)
    requires t.shares == map[s.cos[c].share := sh] && t.cos == Part(s, c, o).cos[c := co]
    ensures Put(s, c, o, t) ==
      State(s.shares[s.cos[c].share := sh], s.cos[c := co], t.cur, t.mainReg, t.cpu)
  {
    var i := s.cos[c].share;
    assert s.shares + t.shares == s.shares[i := sh];
    assert (s.cos - {c, o}) + t.cos == s.cos[c := co];
  }

  lemma SameKeyTwice<K, V>(m: map<K, V>, k: K)
    requires k in m
    ensures m[k := m[k]] == m
  {
  }

  lemma ResumeOnFreeStackIsLocal<C, S>(s: State<C, S>, c: C, o: C)
    requires Inv(s) && Local(s, c, o) && s.cur == None && !s.cos[c].ended
    requires s.shares[s.cos[c].share].owner != Some(o) || o == c
    ensures Inv(Part(s, c, o)) && Step(Part(s, c, o), Resume(c)).Some?
    ensures s.cos[c].share in Step(Part(s, c, o), Resume(c)).value.shares
    ensures Step(s, Resume(c)) == Some(Put(s, c, o, Step(Part(s, c, o), Resume(c)).value))
  {
    PartHasInv(s, c, o);
    hide CoOn, Step, CopyIn, Put, OwnerValid, CurValid, Inv;
    var v, i := Part(s, c, o), s.cos[c].share;
    ResumeIs(s, c);
    ResumeIs(v, c);
    var sh, co, t := s.shares[i], s.cos[c], Step(v, Resume(c)).value;
    SameKeyTwice(s.shares, i);
    SameKeyTwice(s.cos, c);
    SameKeyTwice(v.cos, c);
    if sh.owner == Some(c) {
      PutChanged(s, c, o, sh, co, t);
    } else {
      var r := CopyIn(sh, c, co).value;
      PutChanged(s, c, o, r.0, r.1, t);
    }
  }

  lemma PutTwice<C, S>(s: State<C, S>, m: State<C, S>, c: C, o: C, t: State<C, S>)
    requires s.cos.Keys >= {c, o} && s.cos[c].share in t.shares
    requires m.cos - {c, o} == s.cos - {c, o} && m.shares - {s.cos[c].share} == s.shares - {s.cos[c].share}
    ensures Put(m, c, o, t) == Put(s, c, o, t)
  {
    var i := s.cos[c].share;
    assert m.shares + t.shares == (m.shares - {i}) + t.shares;
    assert s.shares + t.shares == (s.shares - {i}) + t.shares;
  }

  /** Parking the owner in the machine parks it in the part. */
  lemma PartOfEvicted<C, S>(s: State<C, S>, c: C, o: C, sh: Share<C>, oo: Co<S>)
    requires Local(s, c, o) && o != c && s.cur == None && sh.owner == None && oo.share == s.cos[c].share
    ensures var i := s.cos[c].share;
      var m, v := s.(shares := s.shares[i := sh], cos := s.cos[o := oo]), Part(s, c, o);
      && Local(m, c, o) && Part(m, c, o) == v.(shares := v.shares[i := sh], cos := v.cos[o := oo])
      && m.cos - {c, o} == s.cos - {c, o} && m.shares - {i} == s.shares - {i}
  {
    var i := s.cos[c].share;
    var m, v := s.(shares := s.shares[i := sh], cos := s.cos[o := oo]), Part(s, c, o);
    assert Part(m, c, o).cos == v.cos[o := oo] && Part(m, c, o).shares == v.shares[i := sh];
  }

  /** The machine after the owner `o` has been parked. */
  ghost function Evicted<C, S>(s: State<C, S>, c: C, o: C): Option<State<C, S>>
    requires Inv(s) && Local(s, c, o)
  {
    PartHasInv(s, c, o);
    match SaveOut(s.shares[s.cos[c].share], s.cos[o])
    case None => None
    case Some((sh, oo)) => Some(s.(shares := s.shares[s.cos[c].share := sh], cos := s.cos[o := oo]))
  }

  lemma EvictedIs<C, S>(s: State<C, S>, c: C, o: C)
    requires Inv(s) && Local(s, c, o) && s.cur == None && !s.cos[c].ended
    requires s.shares[s.cos[c].share].owner == Some(o) && o != c
    ensures Evicted(s, c, o).None? ==> Step(s, Resume(c)) == None
    ensures Evicted(s, c, o).Some? ==>
      var m := Evicted(s, c, o).value;
      && Inv(m) && Local(m, c, o) && m.shares[m.cos[c].share].owner == None && m.cur == None && !m.cos[c].ended
      && m.cos[c].share == s.cos[c].share
      && Step(s, Resume(c)) == Step(m, Resume(c))
  {
    PartHasInv(s, c, o);
    hide CoOn, Step, SaveOut, OwnerValid, CurValid;
    ResumeAfterEviction(s, c, o);
  }

  lemma EvictedPart<C, S>(s: State<C, S>, c: C, o: C)
    requires Inv(s) && Local(s, c, o) && s.cur == None && !s.cos[c].ended
    requires s.shares[s.cos[c].share].owner == Some(o) && o != c
    ensures Inv(Part(s, c, o)) && Local(Part(s, c, o), c, o)
    ensures Evicted(s, c, o).None? <==> Evicted(Part(s, c, o), c, o).None?
    ensures Evicted(s, c, o).Some? ==>
      var m := Evicted(s, c, o).value;
      && Local(m, c, o) && Evicted(Part(s, c, o), c, o) == Some(Part(m, c, o))
      && m.cos - {c, o} == s.cos - {c, o} && m.shares - {s.cos[c].share} == s.shares - {s.cos[c].share}
  {
    PartHasInv(s, c, o);
    EvictedIs(s, c, o);
    hide CoOn, SaveOut, OwnerValid, CurValid, Inv;
    var r := SaveOut(s.shares[s.cos[c].share], s.cos[o]);
    if r.Some? {
      EvictedShare(s, c, o);
      PartOfEvicted(s, c, o, r.value.0, r.value.1);
    }
  }

  lemma EvictedShare<C, S>(s: State<C, S>, c: C, o: C)
    requires Inv(s) && Local(s, c, o) && Evicted(s, c, o).Some?
    ensures CoValid(s, o) && s.shares[s.cos[c].share].Valid()
    ensures var r := SaveOut(s.shares[s.cos[c].share], s.cos[o]);
      r.Some? && r.value.0.owner == None && r.value.1.share == s.cos[c].share
  {
    PartHasInv(s, c, o);
  }

  lemma ResumeAfterEvictionIsLocal<C, S>(s: State<C, S>, c: C, o: C)
    requires Inv(s) && Local(s, c, o) && s.cur == None && !s.cos[c].ended
    requires s.shares[s.cos[c].share].owner == Some(o) && o != c
    ensures Inv(Part(s, c, o))
    ensures var r := Step(Part(s, c, o), Resume(c));
      Step(s, Resume(c)) == if r.None? then None else Some(Put(s, c, o, r.value))
  {
    var v := Part(s, c, o);
    assert v.cos[c] == s.cos[c] && v.cos[o] == s.cos[o] && v.shares[v.cos[c].share] == s.shares[s.cos[c].share];
    assert s.cos.Keys >= {c, o};
    hide Step, Evicted, Put, Inv, Part, Local;
    EvictedPart(s, c, o);
    EvictedIs(s, c, o);
    EvictedIs(v, c, o);
    if Evicted(s, c, o).Some? {
      var m := Evicted(s, c, o).value;
      ResumeOnFreeStackIsLocal(m, c, o);
      var t := Step(Part(m, c, o), Resume(c)).value;
      PutTwice(s, m, c, o, t);
    }
  }

  lemma ResumeIsLocal<C, S>(s: State<C, S>, c: C, o: C)
    requires Inv(s) && Local(s, c, o) && s.cur == None
    ensures Inv(Part(s, c, o))
    ensures var r := Step(Part(s, c, o), Resume(c));
      Step(s, Resume(c)) == if r.None? then None else Some(Put(s, c, o, r.value))
  {
    PartHasInv(s, c, o);
    if !s.cos[c].ended {
      hide Step, Inv;
      if s.shares[s.cos[c].share].owner == Some(o) && o != c {
        ResumeAfterEvictionIsLocal(s, c, o);
      } else {
        ResumeOnFreeStackIsLocal(s, c, o);
      }
    }
  }

  lemma PutRemoved<C, S>(s: State<C, S>, c: C, o: C, sh: Share<C>, t: State<C, S>)
    requires Local(s, c, o)
    requires t.shares == map[s.cos[c].share := sh] && t.cos == Part(s, c, o).cos - {c}
    ensures Put(s, c, o, t) == State(s.shares[s.cos[c].share := sh], s.cos - {c}, t.cur, t.mainReg, t.cpu)
  {
    assert s.shares + t.shares == s.shares[s.cos[c].share := sh];
    assert (s.cos - {c, o}) + t.cos == s.cos - {c};
  }

  lemma DestroyIsLocal<C, S>(s: State<C, S>, c: C, o: C)
    requires Inv(s) && Local(s, c, o) && s.cur != Some(c)
    ensures Inv(Part(s, c, o))
    ensures var r := Step(Part(s, c, o), Destroy(c));
      r.Some? && Step(s, Destroy(c)) == Some(Put(s, c, o, r.value))
  {
    PartHasInv(s, c, o);
    hide CoOn, Acquire, Put, OwnerValid, CurValid, Inv;
    var v, i := Part(s, c, o), s.cos[c].share;
    var t := Step(v, Destroy(c)).value;
    SameKeyTwice(s.shares, i);
    PutRemoved(s, c, o, t.shares[i], t);
  }

  lemma SetTwice<K, V>(m: map<K, V>, k: K, a: V, b: V)
    ensures m[k := a][k := b] == m[k := b]
  {
  }

  lemma ExitIsLocal<C, S>(s: State<C, S>, c: C, o: C)
    requires Inv(s) && Local(s, c, o) && s.cur == Some(c)
    ensures Inv(Part(s, c, o))
    ensures var r := Step(Part(s, c, o), Exit);
      r.Some? && Step(s, Exit) == Some(Put(s, c, o, r.value))
  {
    PartHasInv(s, c, o);
    hide CoOn, Step, Put, OwnerValid, CurValid, Inv;
    var v, i := Part(s, c, o), s.cos[c].share;
    ExitIs(s, c);
    ExitIs(v, c);
    var ended, left := s.cos[c].(ended := true), s.cos[c].(ended := true, reg := s.cpu);
    SetTwice(s.cos, c, ended, left);
    SetTwice(v.cos, c, ended, left);
    PutChanged(s, c, o, Disowned(s.shares[i]), left, Step(v, Exit).value);
  }

  lemma YieldIsLocal<C, S>(s: State<C, S>, c: C, o: C)
    requires Local(s, c, o) && s.cur == Some(c)
    ensures SwitchToMain(s) == Put(s, c, o, SwitchToMain(Part(s, c, o)))
  {
    SameKeyTwice(s.shares, s.cos[c].share);
    PutChanged(s, c, o, s.shares[s.cos[c].share], s.cos[c].(reg := s.cpu), SwitchToMain(Part(s, c, o)));
  }

  /** A switch made on the part is the switch of the whole machine. */
  lemma SwitchIsLocal<C, S>(s: State<C, S>, op: Op<C, S>, c: C, o: C)
    requires Inv(s) && Local(s, c, o) && Enabled(s, op) && Switches(s, op, c)
    ensures Inv(Part(s, c, o)) && Enabled(Part(s, c, o), op)
    ensures var r := Step(Part(s, c, o), op);
      Step(s, op) == if r.None? then None else Some(Put(s, c, o, r.value))
  {
    PartHasInv(s, c, o);
    hide CoOn, OwnerValid, CurValid, Acquire, Put, Part;
    match op
    case Resume(_) => ResumeIsLocal(s, c, o);
    case Destroy(_) => DestroyIsLocal(s, c, o);
    case Yield => YieldIsLocal(s, c, o);
    case Exit => ExitIsLocal(s, c, o);
  }
}
