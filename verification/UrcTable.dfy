/** The table of unsolicited-result handlers of src/at.c, as slots and as a finite map. */
module UrcTable {
  import opened Common
  import opened EngineTypes

  type Slots = seq<Option<Urc>>

  /** The slot whose active prefix is p, or the number of slots. */
  function FindPrefix(t: Slots, p: CString): (i: nat)
    ensures i <= |t|
    ensures i < |t| ==> t[i].Some? && t[i].value.prefix == p
    ensures forall j :: 0 <= j < i ==> !(t[j].Some? && t[j].value.prefix == p)
  {
    if t == [] || (t[0].Some? && t[0].value.prefix == p) then 0 else 1 + FindPrefix(t[1..], p)
  }

  function FindFree(t: Slots): (i: nat)
    ensures i <= |t|
    ensures i < |t| ==> t[i].None?
    ensures forall j :: 0 <= j < i ==> t[j].Some?
  {
    if t == [] || t[0].None? then 0 else 1 + FindFree(t[1..])
  }

  /** The first active slot whose prefix starts the line. */
  function FindMatch(t: Slots, line: CString): (i: nat)
    ensures i <= |t|
    ensures i < |t| ==> t[i].Some? && t[i].value.prefix <= line
    ensures forall j :: 0 <= j < i ==> !(t[j].Some? && t[j].value.prefix <= line)
  {
    if t == [] || (t[0].Some? && t[0].value.prefix <= line) then 0 else 1 + FindMatch(t[1..], line)
  }

  /** Prefixes are stored and compared on their first lineMax - 1 characters. */
  function Stored(prefix: CString, lineMax: nat): (p: CString)
    requires lineMax > 0
    ensures p <= prefix && (|p| == |prefix| || |p| == lineMax - 1) && |p| < lineMax
  {
    Take(prefix, lineMax - 1)
  }

  function Registered(t: Slots, lineMax: nat, prefix: Option<CString>, handler: Option<Handler>): (r: (Slots, Status))
    requires lineMax > 0
    ensures |r.0| == |t| && (r.1 == ErrParam <==> prefix.None? || handler.None?) && (r.1 != Ok ==> r.0 == t)
  {
    if prefix.None? || handler.None? then (t, ErrParam)
    else
      var u := Urc(Stored(prefix.value, lineMax), handler.value);
      var same, free := FindPrefix(t, u.prefix), FindFree(t);
      if same < |t| then (t[same := Some(u)], Ok)
      else if free < |t| then (t[free := Some(u)], Ok)
      else (t, ErrBusy)
  }

  function Deregistered(t: Slots, lineMax: nat, prefix: Option<CString>): (r: (Slots, Status))
    requires lineMax > 0
    ensures |r.0| == |t| && (r.1 == Ok || (r.1 == ErrParam && r.0 == t)) && (prefix.None? ==> r.1 == ErrParam)
  {
    if prefix.None? then (t, ErrParam)
    else
      var i := FindPrefix(t, Stored(prefix.value, lineMax));
      if i < |t| then (t[i := None], Ok) else (t, ErrParam)
  }

  // ---------------------------------------------------------------- as a finite map

  /** Active prefixes are pairwise distinct. */
  ghost predicate Distinct(t: Slots) {
    forall i, j :: 0 <= i < j < |t| && t[i].Some? && t[j].Some? ==> t[i].value.prefix != t[j].value.prefix
  }

  function Prefixes(t: Slots): set<CString> {
    set i | 0 <= i < |t| && t[i].Some? :: t[i].value.prefix
  }

  lemma HasPrefix(t: Slots, p: CString)
    ensures p in Prefixes(t) <==> FindPrefix(t, p) < |t|
  {
  }

  /** The handler of each active prefix. */
  function AsMap(t: Slots): map<CString, Handler> {
    map p | p in Prefixes(t) :: HandlerOf(t, p)
  }

  function HandlerOf(t: Slots, p: CString): Handler
    requires p in Prefixes(t)
  {
    HasPrefix(t, p);
    t[FindPrefix(t, p)].value.handler
  }

  lemma FindPrefixAt(t: Slots, p: CString, i: nat)
    requires Distinct(t) && i < |t| && t[i].Some? && t[i].value.prefix == p
    ensures FindPrefix(t, p) == i && p in Prefixes(t) && HandlerOf(t, p) == t[i].value.handler
  {
    HasPrefix(t, p);
  }

  /** A prefix that neither the old nor the new entry of slot i has keeps its handler. */
  lemma OtherPrefix(t: Slots, i: nat, u: Option<Urc>, p: CString)
    requires i < |t| && Distinct(t) && Distinct(t[i := u]) && p in Prefixes(t)
    requires t[i].Some? ==> t[i].value.prefix != p
    ensures p in Prefixes(t[i := u]) && HandlerOf(t[i := u], p) == HandlerOf(t, p)
  {
    HasPrefix(t, p);
    FindPrefixAt(t[i := u], p, FindPrefix(t, p));
  }

  lemma ClearedIsGone(t: Slots, i: nat)
    requires Distinct(t) && i < |t| && t[i].Some?
    ensures Distinct(t[i := None]) && t[i].value.prefix !in Prefixes(t[i := None])
  {
  }

  /** Emptying a slot removes its prefix. */
  lemma ClearSlot(t: Slots, i: nat)
    requires Distinct(t) && i < |t| && t[i].Some?
    ensures Distinct(t[i := None])
    ensures AsMap(t[i := None]) == AsMap(t) - {t[i].value.prefix}
  {
    var t', gone := t[i := None], t[i].value.prefix;
    ClearedIsGone(t, i);
    assert t'[i := t[i]] == t;
    forall p | p in Prefixes(t') ensures p in Prefixes(t) && HandlerOf(t, p) == HandlerOf(t', p) {
      OtherPrefix(t', i, t[i], p);
    }
    forall p | p in Prefixes(t) && p != gone ensures p in Prefixes(t') {
      OtherPrefix(t, i, None, p);
    }
    assert AsMap(t').Keys == AsMap(t).Keys - {gone};
  }

  /** Filling a free slot, or refilling the slot of the same prefix, sets that prefix. */
  lemma SetSlot(t: Slots, i: nat, u: Urc)
    requires Distinct(t) && i < |t|
    requires forall j :: 0 <= j < |t| && j != i && t[j].Some? ==> t[j].value.prefix != u.prefix
    requires t[i].Some? ==> t[i].value.prefix == u.prefix
    ensures Distinct(t[i := Some(u)])
    ensures AsMap(t[i := Some(u)]) == AsMap(t)[u.prefix := u.handler]
  {
    var t', m := t[i := Some(u)], AsMap(t)[u.prefix := u.handler];
    FindPrefixAt(t', u.prefix, i);
    forall p | p in Prefixes(t') && p != u.prefix ensures p in m && m[p] == HandlerOf(t', p) {
      assert t'[i := t[i]] == t;
      OtherPrefix(t', i, t[i], p);
    }
    forall p | p in m && p != u.prefix ensures p in Prefixes(t') {
      OtherPrefix(t, i, Some(u), p);
    }
    assert AsMap(t').Keys == m.Keys;
  }

  /** Registering refines map update: a known prefix gets the new handler, a new one needs a free
      slot, and the table refuses only a new prefix when every slot is taken. */
  lemma RegisterRefines(t: Slots, lineMax: nat, prefix: CString, h: Handler)
    requires Distinct(t) && lineMax > 0
    ensures var (t', r) := Registered(t, lineMax, Some(prefix), Some(h));
            var p := Stored(prefix, lineMax);
            && Distinct(t')
            && (r == Ok || r == ErrBusy)
            && (r == ErrBusy <==> p !in AsMap(t) && forall i :: 0 <= i < |t| ==> t[i].Some?)
            && AsMap(t') == if r == Ok then AsMap(t)[p := h] else AsMap(t)
  {
    var u := Urc(Stored(prefix, lineMax), h);
    var same, free := FindPrefix(t, u.prefix), FindFree(t);
    HasPrefix(t, u.prefix);
    if same < |t| {
      SetSlot(t, same, u);
    } else if free < |t| {
      SetSlot(t, free, u);
    }
  }

  /** Deregistering refines map removal. */
  lemma DeregisterRefines(t: Slots, lineMax: nat, prefix: CString)
    requires Distinct(t) && lineMax > 0
    ensures var (t', r) := Deregistered(t, lineMax, Some(prefix));
            var p := Stored(prefix, lineMax);
            && Distinct(t')
            && (r == Ok <==> p in AsMap(t))
            && AsMap(t') == AsMap(t) - {p}
  {
    var p := Stored(prefix, lineMax);
    var i := FindPrefix(t, p);
    HasPrefix(t, p);
    if i < |t| {
      ClearSlot(t, i);
    }
  }

  /** A line that only one active prefix matches reaches that prefix's handler, whatever the
      slot layout. */
  lemma MatchByMap(t: Slots, line: CString, p: CString)
    requires Distinct(t)
    requires p in AsMap(t) && p <= line
    requires forall q :: q in AsMap(t) && q <= line ==> q == p
    ensures var i := FindMatch(t, line);
            i < |t| && t[i].value.handler == AsMap(t)[p]
  {
    HasPrefix(t, p);
    var i := FindMatch(t, line);
    assert i <= FindPrefix(t, p);
    FindPrefixAt(t, t[i].value.prefix, i);
    assert t[i].value.prefix in AsMap(t);
  }

  /** No handler runs exactly when no active prefix starts the line. */
  lemma NoMatchByMap(t: Slots, line: CString)
    requires Distinct(t)
    ensures FindMatch(t, line) == |t| <==> forall q :: q in AsMap(t) ==> !(q <= line)
  {
    var i := FindMatch(t, line);
    if i < |t| {
      FindPrefixAt(t, t[i].value.prefix, i);
      assert t[i].value.prefix in AsMap(t);
    } else {
      forall q | q in AsMap(t) ensures !(q <= line) {
        HasPrefix(t, q);
        assert !(t[FindPrefix(t, q)].Some? && t[FindPrefix(t, q)].value.prefix <= line);
      }
    }
  }
}
