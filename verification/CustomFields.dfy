/** The custom fields an object gets from its fieldsets, followed by the global ones
    (itambox/assets/customfields.py). */
module CustomFields {

  datatype Definition = Definition(namespace: string, name: string, composed: bool, targets: set<string>,
                                   deprecated: bool)

  /** A fieldset with its fields in position order. */
  datatype Fieldset = Fieldset(namespace: string, slug: string, active: bool, fields: seq<Definition>)

  datatype Resolved = Resolved(definition: Definition, provenance: seq<string>, readOnly: bool)

  /** A field as a fieldset contributes it. */
  datatype Occurrence = Occurrence(definition: Definition, source: string)

  function QualifiedIdentity(f: Fieldset): string {
    f.namespace + "/" + f.slug
  }

  predicate IsResolvable(d: Definition, target: string, stored: set<string>) {
    d.composed && target in d.targets && !(d.deprecated && d.name !in stored)
  }

  // ----- What the fieldsets contribute -----

  function FieldOccurrences(fields: seq<Definition>, source: string, target: string,
                            stored: set<string>): seq<Occurrence> {
    if fields == [] then []
    else
      FieldOccurrences(fields[..|fields| - 1], source, target, stored) +
      (if IsResolvable(fields[|fields| - 1], target, stored) then [Occurrence(fields[|fields| - 1], source)] else [])
  }

  /** Every resolvable field of every active fieldset, in order. */
  function Occurrences(fieldsets: seq<Fieldset>, target: string, stored: set<string>): seq<Occurrence> {
    if fieldsets == [] then []
    else
      var last := fieldsets[|fieldsets| - 1];
      Occurrences(fieldsets[..|fieldsets| - 1], target, stored) +
      (if last.active then FieldOccurrences(last.fields, QualifiedIdentity(last), target, stored) else [])
  }

  predicate IsNamed(os: seq<Occurrence>, name: string) {
    exists o :: o in os && o.definition.name == name
  }

  /** The occurrences that no earlier one has the name of. */
  function Firsts(os: seq<Occurrence>): seq<Definition> {
    if os == [] then []
    else
      var front, last := os[..|os| - 1], os[|os| - 1];
      Firsts(front) + (if IsNamed(front, last.definition.name) then [] else [last.definition])
  }

  /** Who contributes a name, in order. */
  function Sources(os: seq<Occurrence>, name: string): seq<string> {
    if os == [] then []
    else Sources(os[..|os| - 1], name) + (if os[|os| - 1].definition.name == name then [os[|os| - 1].source] else [])
  }

  function ResolvedAs(os: seq<Occurrence>, d: Definition): Resolved {
    Resolved(d, Sources(os, d.name), d.deprecated)
  }

  /** One entry per name, in order of first occurrence, with the first definition and
      all its sources. */
  function Resolution(os: seq<Occurrence>): (r: seq<Resolved>)
    ensures |r| == |Firsts(os)|
  {
    seq(|Firsts(os)|, i requires 0 <= i < |Firsts(os)| => ResolvedAs(os, Firsts(os)[i]))
  }

  // ----- The loops -----

  ghost predicate IsIndex(resolved: seq<Resolved>, byKey: map<string, nat>) {
    && (forall n :: n in byKey ==> byKey[n] < |resolved| && resolved[byKey[n]].definition.name == n)
    && (forall i :: 0 <= i < |resolved| ==>
          resolved[i].definition.name in byKey && byKey[resolved[i].definition.name] == i)
  }

  class Resolver {
    var resolved: seq<Resolved>
    var byKey: map<string, nat>

    constructor ()
      ensures resolved == [] && byKey == map[]
    {
      resolved, byKey := [], map[];
    }

    /** `os` is what has been merged so far. */
    method MergeResolvedField(d: Definition, source: string, target: string, stored: set<string>,
                              ghost os: seq<Occurrence>)
      requires resolved == Resolution(os) && IsIndex(resolved, byKey)
      modifies this
      ensures resolved == Resolution(os + if IsResolvable(d, target, stored) then [Occurrence(d, source)] else [])
      ensures IsIndex(resolved, byKey)
    {
      if !IsResolvable(d, target, stored) {
        assert os + [] == os;
        return;
      }
      MergeOne(os, Occurrence(d, source));
      if d.name in byKey {
        var index := byKey[d.name];
        var current := resolved[index];
        resolved := resolved[index := current.(provenance := current.provenance + [source])];
        return;
      }
      byKey := byKey[d.name := |resolved|];
      resolved := resolved + [Resolved(d, [source], d.deprecated)];
    }
  }

  lemma {:induction false} NamesAreFirsts(os: seq<Occurrence>, name: string)
    ensures IsNamed(os, name) <==> exists i :: 0 <= i < |Firsts(os)| && Firsts(os)[i].name == name
  {
    if os != [] {
      var front, last := os[..|os| - 1], os[|os| - 1];
      assert os == front + [last] && forall o :: o in os <==> o in front || o == last;
      NamesAreFirsts(front, name);
      if last.definition.name == name && !IsNamed(front, name) { assert Firsts(os)[|Firsts(front)|].name == name; }
      if i :| 0 <= i < |Firsts(front)| && Firsts(front)[i].name == name { assert Firsts(os)[i].name == name; }
    }
  }

  lemma {:induction false} NoSources(os: seq<Occurrence>, name: string)
    requires !IsNamed(os, name)
    ensures Sources(os, name) == []
  {
    if os != [] {
      assert os[|os| - 1] in os && forall o :: o in os[..|os| - 1] ==> o in os;
      NoSources(os[..|os| - 1], name);
    }
  }

  lemma OneMoreOccurrence(os: seq<Occurrence>, o: Occurrence)
    ensures var all, n := os + [o], o.definition.name;
            && Firsts(all) == Firsts(os) + (if IsNamed(os, n) then [] else [o.definition])
            && forall name :: Sources(all, name) == Sources(os, name) + (if name == n then [o.source] else [])
  {
    var all := os + [o];
    assert all[..|all| - 1] == os && all[|all| - 1] == o;
  }

  /** The effect of one more occurrence on the entries. */
  lemma MergeOne(os: seq<Occurrence>, o: Occurrence)
    ensures var before, after, n := Resolution(os), Resolution(os + [o]), o.definition.name;
            && (!IsNamed(os, n) ==> after == before + [Resolved(o.definition, [o.source], o.definition.deprecated)])
            && (IsNamed(os, n) ==> |after| == |before| && forall i :: 0 <= i < |before| ==>
                  after[i] == if before[i].definition.name == n
                              then before[i].(provenance := before[i].provenance + [o.source]) else before[i])
            && (IsNamed(os, n) <==> exists i :: 0 <= i < |before| && before[i].definition.name == n)
  {
    var all, n := os + [o], o.definition.name;
    OneMoreOccurrence(os, o);
    NamesAreFirsts(os, n);
    hide Sources, Firsts, IsNamed;
    if !IsNamed(os, n) {
      NoSources(os, n);
      assert Sources(all, n) == [o.source];
    }
    assert forall i :: 0 <= i < |Resolution(os)| ==> Resolution(os)[i] == ResolvedAs(os, Firsts(os)[i]);
    assert forall i :: 0 <= i < |Resolution(all)| ==> Resolution(all)[i] == ResolvedAs(all, Firsts(all)[i]);
    forall i | 0 <= i < |Firsts(os)|
      ensures Resolution(all)[i] == if Firsts(os)[i].name == n
                                    then Resolution(os)[i].(provenance := Resolution(os)[i].provenance + [o.source])
                                    else Resolution(os)[i]
    {
      assert Sources(all, Firsts(os)[i].name) ==
               Sources(os, Firsts(os)[i].name) + (if Firsts(os)[i].name == n then [o.source] else []);
      assert Sources(os, Firsts(os)[i].name) + [] == Sources(os, Firsts(os)[i].name);
    }
    if exists i :: 0 <= i < |Firsts(os)| && Firsts(os)[i].name == n {
      var i :| 0 <= i < |Firsts(os)| && Firsts(os)[i].name == n;
      assert Resolution(os)[i].definition.name == n;
    }
  }

  /** The memberships of one active fieldset. */
  method MergeFieldset(resolver: Resolver, f: Fieldset, target: string, stored: set<string>, ghost os: seq<Occurrence>)
    requires resolver.resolved == Resolution(os) && IsIndex(resolver.resolved, resolver.byKey)
    modifies resolver
    ensures resolver.resolved == Resolution(os + FieldOccurrences(f.fields, QualifiedIdentity(f), target, stored))
    ensures IsIndex(resolver.resolved, resolver.byKey)
  {
    var source := QualifiedIdentity(f);
    assert os + FieldOccurrences([], source, target, stored) == os;
    hide Resolution, IsIndex, IsResolvable;
    for j := 0 to |f.fields|
      invariant IsIndex(resolver.resolved, resolver.byKey)
      invariant resolver.resolved == Resolution(os + FieldOccurrences(f.fields[..j], source, target, stored))
    {
      NextField(f.fields, j, source, target, stored, os);
      resolver.MergeResolvedField(f.fields[j], source, target, stored,
                                  os + FieldOccurrences(f.fields[..j], source, target, stored));
    }
    assert f.fields[..|f.fields|] == f.fields;
  }

  lemma NextField(fields: seq<Definition>, j: nat, source: string, target: string, stored: set<string>,
                  os: seq<Occurrence>)
    requires j < |fields|
    ensures os + FieldOccurrences(fields[..j + 1], source, target, stored) ==
            os + FieldOccurrences(fields[..j], source, target, stored) + if IsResolvable(fields[j], target, stored)
                                                                         then [Occurrence(fields[j], source)] else []
  {
    assert fields[..j + 1][..j] == fields[..j];
  }

  method ResolveFieldsets(fieldsets: seq<Fieldset>, target: string, stored: set<string>)
    returns (resolved: seq<Resolved>)
    ensures resolved == Resolution(Occurrences(fieldsets, target, stored))
  {
    var resolver := new Resolver();
    assert IsIndex(resolver.resolved, resolver.byKey) && resolver.resolved == Resolution([]);
    assert fieldsets[..0] == [];
    for i := 0 to |fieldsets|
      invariant fresh(resolver) && IsIndex(resolver.resolved, resolver.byKey)
      invariant resolver.resolved == Resolution(Occurrences(fieldsets[..i], target, stored))
    {
      NextFieldset(fieldsets, i, target, stored);
      hide Resolution, Occurrences, FieldOccurrences, IsIndex;
      if !fieldsets[i].active { continue; }
      MergeFieldset(resolver, fieldsets[i], target, stored, Occurrences(fieldsets[..i], target, stored));
    }
    assert fieldsets[..|fieldsets|] == fieldsets;
    return resolver.resolved;
  }

  lemma NextFieldset(fieldsets: seq<Fieldset>, i: nat, target: string, stored: set<string>)
    requires i < |fieldsets|
    ensures var f, before, after := fieldsets[i], Occurrences(fieldsets[..i], target, stored),
                                    Occurrences(fieldsets[..i + 1], target, stored);
            after == if f.active then before + FieldOccurrences(f.fields, QualifiedIdentity(f), target, stored)
                     else before
  {
    hide FieldOccurrences;
    assert fieldsets[..i + 1][..i] == fieldsets[..i];
  }

  // ----- Global fields -----

  predicate HasName(resolved: seq<Resolved>, name: string) {
    exists i :: 0 <= i < |resolved| && resolved[i].definition.name == name
  }

  /** The global definitions that are still to be added after `resolved`. */
  function WithGlobals(resolved: seq<Resolved>, globals: seq<Definition>, stored: set<string>): seq<Resolved>
    decreases |globals|
  {
    if globals == [] then resolved
    else
      var d := globals[0];
      WithGlobals(if HasName(resolved, d.name) || (d.deprecated && d.name !in stored) then resolved
                  else resolved + [Resolved(d, [], d.deprecated)], globals[1..], stored)
  }

  /** `globals` are the global fields that apply to the target, by name. */
  method ResolveEffective(fieldsets: seq<Fieldset>, globals: seq<Definition>, target: string, stored: set<string>)
    returns (resolved: seq<Resolved>)
    ensures resolved == WithGlobals(Resolution(Occurrences(fieldsets, target, stored)), globals, stored)
  {
    resolved := ResolveFieldsets(fieldsets, target, stored);
    ghost var composed := resolved;
    var seen := set i | 0 <= i < |resolved| :: resolved[i].definition.name;
    for k := 0 to |globals|
      invariant WithGlobals(composed, globals, stored) == WithGlobals(resolved, globals[k..], stored)
      invariant forall n :: n in seen <==> HasName(resolved, n)
    {
      var d := globals[k];
      assert globals[k..][1..] == globals[k + 1..];
      if d.name in seen || (d.deprecated && d.name !in stored) { continue; }
      AddedNames(resolved, Resolved(d, [], d.deprecated));
      resolved := resolved + [Resolved(d, [], d.deprecated)];
      seen := seen + {d.name};
    }
  }

  lemma AddedNames(resolved: seq<Resolved>, r: Resolved)
    ensures forall n :: HasName(resolved + [r], n) <==> HasName(resolved, n) || n == r.definition.name
  {
    var all := resolved + [r];
    assert all[|resolved|] == r && forall i :: 0 <= i < |resolved| ==> all[i] == resolved[i];
  }

  // ----- What the result means -----

  ghost predicate NamesUnique(resolved: seq<Resolved>) {
    forall i, j :: 0 <= i < j < |resolved| ==> resolved[i].definition.name != resolved[j].definition.name
  }

  /** Position p holds the first occurrence of its name. */
  predicate IsFirst(os: seq<Occurrence>, p: nat) {
    p < |os| && forall q :: 0 <= q < p ==> os[q].definition.name != os[p].definition.name
  }

  /** Entries are in the order of their names' first occurrences, and hold those
      definitions: the k-th entry stands at position at[k]. */
  lemma EntriesAreFirstOccurrences(os: seq<Occurrence>) returns (at: seq<nat>)
    ensures |at| == |Resolution(os)| && (forall j, k :: 0 <= j < k < |at| ==> at[j] < at[k])
    ensures forall k :: 0 <= k < |at| ==> IsFirst(os, at[k]) && Resolution(os)[k].definition == os[at[k]].definition
    ensures forall p: nat :: IsFirst(os, p) ==> p in at
  {
    at := FirstsAreInOrder(os);
    hide Firsts, IsFirst;
    assert forall k :: 0 <= k < |Firsts(os)| ==> Resolution(os)[k].definition == Firsts(os)[k];
  }

  lemma FirstAtEnd(front: seq<Occurrence>, last: Occurrence)
    ensures IsFirst(front + [last], |front|) <==> !IsNamed(front, last.definition.name)
    ensures forall p: nat :: p < |front| ==> (IsFirst(front, p) <==> IsFirst(front + [last], p))
  {
    var os := front + [last];
    assert forall q :: 0 <= q < |front| ==> os[q] == front[q] && front[q] in front;
  }

  lemma {:induction false} FirstsAreInOrder(os: seq<Occurrence>) returns (at: seq<nat>)
    ensures |at| == |Firsts(os)| && (forall j, k :: 0 <= j < k < |at| ==> at[j] < at[k])
    ensures forall k :: 0 <= k < |at| ==> IsFirst(os, at[k]) && Firsts(os)[k] == os[at[k]].definition
    ensures forall p: nat :: IsFirst(os, p) ==> p in at
  {
    at := [];
    if os != [] {
      var front, last := os[..|os| - 1], os[|os| - 1];
      assert os == front + [last];
      at := FirstsAreInOrder(front);
      FirstAtEnd(front, last);
      assert forall p: nat :: IsFirst(os, p) ==> p < |os|;
      assert forall k :: 0 <= k < |at| ==> IsFirst(front, at[k]) && at[k] < |front|;
      hide IsFirst, IsNamed;
      if !IsNamed(front, last.definition.name) { at := at + [|front|]; }
    }
  }

  /** Every name is resolved once: with the sources of all its occurrences, read-only
      when deprecated, and a deprecated field only when a value is stored. */
  lemma CompositionIsUnique(fieldsets: seq<Fieldset>, target: string, stored: set<string>)
    ensures var os := Occurrences(fieldsets, target, stored);
            && NamesUnique(Resolution(os))
            && (forall n :: IsNamed(os, n) <==> HasName(Resolution(os), n))
            && (forall r :: r in Resolution(os) ==>
                  IsResolvable(r.definition, target, stored) && r.readOnly == r.definition.deprecated
                                                    && r.provenance == Sources(os, r.definition.name) != [])
  {
    var os := Occurrences(fieldsets, target, stored);
    var at := EntriesAreFirstOccurrences(os);
    OccurrencesResolvable(fieldsets, target, stored);
    forall n ensures IsNamed(os, n) <==> HasName(Resolution(os), n) {
      NamesAreFirsts(os, n);
      assert forall i :: 0 <= i < |Firsts(os)| ==> Resolution(os)[i].definition == Firsts(os)[i];
      if i :| 0 <= i < |Firsts(os)| && Firsts(os)[i].name == n { assert Resolution(os)[i].definition.name == n; }
    }
    forall r | r in Resolution(os)
      ensures IsResolvable(r.definition, target, stored) && r.readOnly == r.definition.deprecated
              && r.provenance == Sources(os, r.definition.name) != []
    {
      var k :| 0 <= k < |Resolution(os)| && Resolution(os)[k] == r;
      assert os[at[k]] in os;
      HasSources(os, at[k]);
    }
  }

  lemma {:induction false} HasSources(os: seq<Occurrence>, p: nat)
    requires p < |os|
    ensures Sources(os, os[p].definition.name) != []
  {
    if p < |os| - 1 { HasSources(os[..|os| - 1], p); }
  }

  lemma {:induction false} FieldsResolvable(fields: seq<Definition>, source: string, target: string,
                                            stored: set<string>)
    ensures forall o :: o in FieldOccurrences(fields, source, target, stored) ==>
              IsResolvable(o.definition, target, stored)
  {
    if fields != [] { FieldsResolvable(fields[..|fields| - 1], source, target, stored); }
  }

  lemma {:induction false} OccurrencesResolvable(fieldsets: seq<Fieldset>, target: string, stored: set<string>)
    ensures forall o :: o in Occurrences(fieldsets, target, stored) ==> IsResolvable(o.definition, target, stored)
  {
    if fieldsets != [] {
      var last := fieldsets[|fieldsets| - 1];
      OccurrencesResolvable(fieldsets[..|fieldsets| - 1], target, stored);
      FieldsResolvable(last.fields, QualifiedIdentity(last), target, stored);
    }
  }

  /** Appending the globals keeps the composed entries where they are and the names
      unique; what is appended comes from no fieldset. */
  lemma {:induction false} GlobalsAreAppended(resolved: seq<Resolved>, globals: seq<Definition>, stored: set<string>)
    requires NamesUnique(resolved)
    ensures var all := WithGlobals(resolved, globals, stored);
            && resolved <= all && NamesUnique(all)
            && (forall i :: |resolved| <= i < |all| ==>
                  && all[i].definition in globals && all[i].provenance == []
                  && all[i].readOnly == all[i].definition.deprecated
                  && (all[i].definition.deprecated ==> all[i].definition.name in stored))
            && (forall d :: d in globals && !(d.deprecated && d.name !in stored) ==> HasName(all, d.name))
    decreases |globals|
  {
    var all := WithGlobals(resolved, globals, stored);
    if globals != [] {
      var d := globals[0];
      var skip := HasName(resolved, d.name) || (d.deprecated && d.name !in stored);
      var next := if skip then resolved else resolved + [Resolved(d, [], d.deprecated)];
      AddedNames(resolved, Resolved(d, [], d.deprecated));
      assert d in globals && forall e :: e in globals <==> e == d || e in globals[1..];
      GlobalsAreAppended(next, globals[1..], stored);
      if HasName(next, d.name) {
        var i :| 0 <= i < |next| && next[i].definition.name == d.name;
        assert all[i] == next[i];
      }
    }
  }

  ghost predicate IsIncreasing(at: seq<nat>) {
    forall j, k :: 0 <= j < k < |at| ==> at[j] < at[k]
  }

  /** The p-th global is usable, is composed by no fieldset, and is the first usable one
      of its name. */
  ghost predicate IsMissing(resolved: seq<Resolved>, globals: seq<Definition>, stored: set<string>, p: nat) {
    && p < |globals| && (globals[p].deprecated ==> globals[p].name in stored)
    && (forall i :: 0 <= i < |resolved| ==> resolved[i].definition.name != globals[p].name)
    && (forall q :: 0 <= q < p && globals[q].name == globals[p].name ==>
          globals[q].deprecated && globals[q].name !in stored)
  }

  /** `all` continues `resolved` with the globals at these positions. */
  ghost predicate Continues(resolved: seq<Resolved>, globals: seq<Definition>, at: seq<nat>, all: seq<Resolved>) {
    && resolved <= all && |all| == |resolved| + |at|
    && forall k :: 0 <= k < |at| ==>
         at[k] < |globals| && all[|resolved| + k] == Resolved(globals[at[k]], [], globals[at[k]].deprecated)
  }

  /** Appended are exactly the missing globals, in their own order. */
  lemma {:induction false} AppendedInOrder(resolved: seq<Resolved>, globals: seq<Definition>, stored: set<string>)
    returns (at: seq<nat>)
    ensures forall p: nat :: p in at <==> IsMissing(resolved, globals, stored, p)
    ensures IsIncreasing(at)
    ensures Continues(resolved, globals, at, WithGlobals(resolved, globals, stored))
    decreases |globals|
  {
    at := [];
    if globals == [] {
      forall p: nat ensures !IsMissing(resolved, globals, stored, p) {}
    } else {
      hide IsMissing, HasName, Continues;
      var d, rest := globals[0], globals[1..];
      var skip := HasName(resolved, d.name) || (d.deprecated && d.name !in stored);
      var next := if skip then resolved else resolved + [Resolved(d, [], d.deprecated)];
      var later := AppendedInOrder(next, rest, stored);
      at := Counted(skip, later);
      forall p: nat ensures p in at <==> IsMissing(resolved, globals, stored, p) {
        MissingOf(resolved, globals, stored, p);
      }
      CountedContinues(resolved, globals, skip, later, WithGlobals(next, rest, stored));
    }
  }

  /** The positions in the globals of what is appended from their rest. */
  function Counted(skip: bool, later: seq<nat>): (at: seq<nat>)
    ensures forall p: nat :: p in at <==> if p == 0 then !skip else p - 1 in later
    ensures IsIncreasing(later) ==> IsIncreasing(at)
    ensures |at| == |later| + (if skip then 0 else 1)
    ensures forall k :: 0 <= k < |at| ==>
              at[k] == if !skip && k == 0 then 0 else later[if skip then k else k - 1] + 1
  {
    var shifted := seq(|later|, k requires 0 <= k < |later| => later[k] + 1);
    assert forall k :: 0 <= k < |later| ==> shifted[k] == later[k] + 1;
    (if skip then [] else [0]) + shifted
  }

  lemma CountedContinues(resolved: seq<Resolved>, globals: seq<Definition>, skip: bool, later: seq<nat>,
                         all: seq<Resolved>)
    requires globals != []
    requires Continues(if skip then resolved else resolved + [Resolved(globals[0], [], globals[0].deprecated)],
                       globals[1..], later, all)
    ensures Continues(resolved, globals, Counted(skip, later), all)
  {
    hide Counted;
    var at := Counted(skip, later);
    forall k | 0 <= k < |at|
      ensures at[k] < |globals| && all[|resolved| + k] == Resolved(globals[at[k]], [], globals[at[k]].deprecated)
    {
      if skip || k > 0 {
        var j := if skip then k else k - 1;
        assert at[k] == later[j] + 1 && all[|resolved| + k].definition == globals[1..][later[j]];
      }
    }
  }

  lemma MissingOf(resolved: seq<Resolved>, globals: seq<Definition>, stored: set<string>, p: nat)
    requires globals != []
    ensures var d := globals[0];
            var skip := HasName(resolved, d.name) || (d.deprecated && d.name !in stored);
            var next := if skip then resolved else resolved + [Resolved(d, [], d.deprecated)];
            IsMissing(resolved, globals, stored, p) <==>
              if p == 0 then !skip else IsMissing(next, globals[1..], stored, p - 1)
  {
    var d, rest := globals[0], globals[1..];
    if 0 < p < |globals| {
      AddedNames(resolved, Resolved(d, [], d.deprecated));
      var skip := HasName(resolved, d.name) || (d.deprecated && d.name !in stored);
      var next := if skip then resolved else resolved + [Resolved(d, [], d.deprecated)];
      var n := globals[p].name;
      assert rest[p - 1] == globals[p] && forall q :: 0 < q < p ==> globals[q] == rest[q - 1];
      assert HasName(next, n) <==> HasName(resolved, n) || (!skip && n == d.name);
      if IsMissing(resolved, globals, stored, p) {
        assert !HasName(resolved, n) && (d.name == n ==> d.deprecated && d.name !in stored);
      }
      if IsMissing(next, rest, stored, p - 1) {
        assert !HasName(next, n);
        assert forall i :: 0 <= i < |resolved| ==> next[i] == resolved[i];
        forall q | 0 <= q < p && globals[q].name == n ensures globals[q].deprecated && globals[q].name !in stored {
          if q > 0 { assert rest[q - 1] == globals[q]; }
        }
      }
    }
  }

  // ----- Which memberships contribute -----

  ghost predicate IsContributed(fields: seq<Definition>, target: string, stored: set<string>, j: nat) {
    && j < |fields| && fields[j].composed && target in fields[j].targets
    && (fields[j].deprecated ==> fields[j].name in stored)
  }

  /** The j-th field of the i-th fieldset contributes its definition. */
  ghost predicate Contributes(fieldsets: seq<Fieldset>, target: string, stored: set<string>, i: nat, j: nat) {
    i < |fieldsets| && fieldsets[i].active && IsContributed(fieldsets[i].fields, target, stored, j)
  }

  /** By fieldset, then by position. */
  ghost predicate InTurn(at: seq<(nat, nat)>) {
    forall j, k :: 0 <= j < k < |at| ==> at[j].0 < at[k].0 || (at[j].0 == at[k].0 && at[j].1 < at[k].1)
  }

  /** The k-th occurrence is field at[k].1 of fieldset at[k].0, with the identity of that
      fieldset as its source. */
  ghost predicate ComeFrom(os: seq<Occurrence>, fieldsets: seq<Fieldset>, at: seq<(nat, nat)>) {
    |at| == |os| && forall k :: 0 <= k < |at| ==>
      && at[k].0 < |fieldsets| && at[k].1 < |fieldsets[at[k].0].fields|
      && os[k].definition == fieldsets[at[k].0].fields[at[k].1]
      && os[k].source == fieldsets[at[k].0].namespace + "/" + fieldsets[at[k].0].slug
  }

  /** What is composed are the contributing fields, fieldset by fieldset in position order. */
  lemma {:induction false} OccurrencesAre(fieldsets: seq<Fieldset>, target: string, stored: set<string>)
    returns (at: seq<(nat, nat)>)
    ensures ComeFrom(Occurrences(fieldsets, target, stored), fieldsets, at) && InTurn(at)
    ensures forall i: nat, j: nat :: (i, j) in at <==> Contributes(fieldsets, target, stored, i, j)
  {
    hide Contributes, FieldOccurrences, ComeFrom, InTurn;
    at := [];
    if fieldsets == [] {
      NoneContributes(target, stored);
    } else {
      var n := |fieldsets| - 1;
      var last := fieldsets[n];
      at := OccurrencesAre(fieldsets[..n], target, stored);
      FrontContributes(fieldsets, target, stored);
      var os := Occurrences(fieldsets[..n], target, stored);
      if last.active {
        var source := QualifiedIdentity(last);
        var fields := FieldsAre(last.fields, source, target, stored);
        Joined(os, FieldOccurrences(last.fields, source, target, stored), fieldsets, at, fields);
        at := at + In(n, fields);
      } else {
        assert os + [] == os;
        Joined(os, [], fieldsets, at, []);
      }
    }
  }

  lemma FrontContributes(fieldsets: seq<Fieldset>, target: string, stored: set<string>)
    requires fieldsets != []
    ensures var n := |fieldsets| - 1;
            forall i: nat, j: nat ::
              Contributes(fieldsets, target, stored, i, j) <==>
                if i == n then fieldsets[n].active && IsContributed(fieldsets[n].fields, target, stored, j)
                else Contributes(fieldsets[..n], target, stored, i, j)
    ensures var front := fieldsets[..|fieldsets| - 1];
            forall i: nat, j: nat :: Contributes(front, target, stored, i, j) ==> i < |front|
  {
  }

  lemma NoneContributes(target: string, stored: set<string>)
    ensures forall i: nat, j: nat :: !Contributes([], target, stored, i, j)
    ensures ComeFrom([], [], []) && InTurn([])
  {
  }

  /** The pairs of one fieldset. */
  function In(n: nat, fields: seq<nat>): (r: seq<(nat, nat)>)
    ensures |r| == |fields| && forall k :: 0 <= k < |r| ==> r[k] == (n, fields[k])
    ensures forall i: nat, j: nat :: (i, j) in r <==> i == n && j in fields
  {
    var r := seq(|fields|, k requires 0 <= k < |fields| => (n, fields[k]));
    assert forall k :: 0 <= k < |fields| ==> r[k] == (n, fields[k]);
    r
  }

  lemma Joined(os: seq<Occurrence>, more: seq<Occurrence>, fieldsets: seq<Fieldset>, at: seq<(nat, nat)>,
               fields: seq<nat>)
    requires fieldsets != [] && ComeFrom(os, fieldsets[..|fieldsets| - 1], at) && InTurn(at)
    requires var last := fieldsets[|fieldsets| - 1]; AreFields(more, last.fields, fields, QualifiedIdentity(last))
    requires IsIncreasing(fields)
    ensures ComeFrom(os + more, fieldsets, at + In(|fieldsets| - 1, fields)) && InTurn(at + In(|fieldsets| - 1, fields))
    ensures fields == [] ==> ComeFrom(os, fieldsets, at)
  {
    hide In;
    assert forall k :: 0 <= k < |at| ==> at[k].0 < |fieldsets| - 1;
  }

  /** The k-th occurrence is field at[k], from this source. */
  ghost predicate AreFields(os: seq<Occurrence>, fields: seq<Definition>, at: seq<nat>, source: string) {
    |at| == |os| && forall k :: 0 <= k < |at| ==> at[k] < |fields| && os[k] == Occurrence(fields[at[k]], source)
  }

  lemma {:induction false} FieldsAre(fields: seq<Definition>, source: string, target: string, stored: set<string>)
    returns (at: seq<nat>)
    ensures AreFields(FieldOccurrences(fields, source, target, stored), fields, at, source) && IsIncreasing(at)
    ensures forall j: nat :: j in at <==> IsContributed(fields, target, stored, j)
  {
    hide AreFields, IsIncreasing;
    at := [];
    if fields == [] {
      NoFields(source);
    } else {
      var n := |fields| - 1;
      at := FieldsAre(fields[..n], source, target, stored);
      assert forall j: nat :: j in at <==> j < n && IsContributed(fields, target, stored, j);
      OneMoreField(FieldOccurrences(fields[..n], source, target, stored), fields, at, source);
      Next(at, n);
      if IsResolvable(fields[n], target, stored) { at := at + [n]; }
    }
  }

  lemma Next(at: seq<nat>, n: nat)
    requires IsIncreasing(at) && forall p :: p in at ==> p < n
    ensures IsIncreasing(at + [n]) && forall p :: p in at + [n] <==> p in at || p == n
  {
    assert forall k :: 0 <= k < |at| ==> at[k] in at;
  }

  lemma NoFields(source: string)
    ensures AreFields([], [], [], source) && IsIncreasing([])
  {
  }

  lemma OneMoreField(os: seq<Occurrence>, fields: seq<Definition>, at: seq<nat>, source: string)
    requires fields != [] && AreFields(os, fields[..|fields| - 1], at, source)
    ensures var n := |fields| - 1;
            && AreFields(os + [], fields, at, source)
            && AreFields(os + [Occurrence(fields[n], source)], fields, at + [n], source)
  {
  }

  /** These occurrences have the name, and these are their sources. */
  ghost predicate Give(os: seq<Occurrence>, at: seq<nat>, sources: seq<string>) {
    |at| == |sources| && forall k :: 0 <= k < |at| ==> at[k] < |os| && sources[k] == os[at[k]].source
  }

  lemma OneMoreSource(os: seq<Occurrence>, at: seq<nat>, sources: seq<string>)
    requires os != [] && Give(os[..|os| - 1], at, sources)
    ensures var n := |os| - 1; Give(os, at, sources + []) && Give(os, at + [n], sources + [os[n].source])
  {
  }

  /** The sources of a name are those of its occurrences, in their order. */
  lemma {:induction false} SourcesAre(os: seq<Occurrence>, name: string) returns (at: seq<nat>)
    ensures Give(os, at, Sources(os, name)) && IsIncreasing(at)
    ensures forall p: nat :: p in at <==> p < |os| && os[p].definition.name == name
  {
    hide Give, IsIncreasing;
    at := [];
    if os == [] {
      NoSource();
    } else {
      var n := |os| - 1;
      at := SourcesAre(os[..n], name);
      assert forall p: nat :: p in at <==> p < n && os[p].definition.name == name;
      OneMoreSource(os, at, Sources(os[..n], name));
      Next(at, n);
      if os[n].definition.name == name { at := at + [n]; }
    }
  }

  lemma NoSource()
    ensures Give([], [], []) && IsIncreasing([])
  {
  }
}
