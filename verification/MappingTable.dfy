/**
 The URL-pattern to handler-name table of the registry: a `GenericStackable`
 written with array syntax, assumed to behave as a PHP ordered array. It is
 a sequence of entries whose patterns are distinct; assigning to an existing
 pattern keeps its position and replaces the name, assigning to a new pattern
 appends, and iteration follows insertion order.
 */
module MappingTable {
  import opened Wrappers

  /** One entry: a (normalised) URL pattern and the logical name of its handler. */
  datatype Mapping = Mapping(pattern: string, handlerName: string)

  /** The patterns stored in a table. */
  function Patterns(t: seq<Mapping>): set<string>
  {
    set e | e in t :: e.pattern
  }

  /** No pattern is stored twice: the table behaves as a PHP array keyed by pattern. */
  predicate UniquePatterns(t: seq<Mapping>)
  {
    forall i, j :: 0 <= i < j < |t| ==> t[i].pattern != t[j].pattern
  }

  /** True iff `i` is the position of the first entry stored under `k`. */
  predicate FirstAt(t: seq<Mapping>, k: string, i: int)
  {
    0 <= i < |t| && t[i].pattern == k && forall j :: 0 <= j < i ==> t[j].pattern != k
  }

  /** The patterns of a non-empty table: the head's and the tail's. */
  lemma PatternsCons(t: seq<Mapping>)
    requires |t| > 0
    ensures Patterns(t) == {t[0].pattern} + Patterns(t[1..])
  {
    assert t == [t[0]] + t[1..];
  }

  /** Past a head stored under another pattern, first positions shift by one. */
  lemma FirstAtTail(t: seq<Mapping>, k: string)
    requires |t| > 0 && t[0].pattern != k
    ensures forall i :: FirstAt(t, k, i) ==> FirstAt(t[1..], k, i - 1)
  {
    forall i | FirstAt(t, k, i)
      ensures FirstAt(t[1..], k, i - 1)
    {
      forall j | 0 <= j < i - 1
        ensures t[1..][j].pattern != k
      {
        assert t[1..][j] == t[j + 1];
      }
    }
  }

  /** The handler name stored under pattern `k`, if any (`$table[$k]`). */
  function Lookup(t: seq<Mapping>, k: string): (r: Option<string>)
    ensures r.None? <==> k !in Patterns(t)
    ensures forall i :: FirstAt(t, k, i) ==> r == Some(t[i].handlerName)
  {
    if |t| == 0 then None
    else if t[0].pattern == k then Some(t[0].handlerName)
    else
      PatternsCons(t);
      FirstAtTail(t, k);
      Lookup(t[1..], k)
  }

  /**
   `$table[$k] = $v` on an ordered PHP array: an entry already stored under `k`
   keeps its place and takes the new name; otherwise the entry is appended.
   */
  function Put(t: seq<Mapping>, k: string, v: string): (r: seq<Mapping>)
    ensures k !in Patterns(t) ==> r == t + [Mapping(k, v)]
    ensures forall i :: FirstAt(t, k, i) ==> r == t[i := Mapping(k, v)]
    ensures Patterns(r) == Patterns(t) + {k}
  {
    if |t| == 0 then [Mapping(k, v)]
    else if t[0].pattern == k then [Mapping(k, v)] + t[1..]
    else
      var rest := Put(t[1..], k, v);
      PatternsCons(t);
      PatternsCons([t[0]] + rest);
      assert ([t[0]] + rest)[1..] == rest;
      FirstAtTail(t, k);
      [t[0]] + rest
  }

  /** Assigning a pattern never creates a second entry for it. */
  lemma PutKeepsPatternsUnique(t: seq<Mapping>, k: string, v: string)
    requires UniquePatterns(t)
    ensures UniquePatterns(Put(t, k, v))
  {
    if k in Patterns(t) {
      var e :| e in t && e.pattern == k;
      var i0 :| 0 <= i0 < |t| && t[i0] == e;
      assert FirstAt(t, k, i0);
    }
  }

  /** Insert/lookup law: the assigned pattern reads back the new name. */
  lemma PutThenLookupSame(t: seq<Mapping>, k: string, v: string)
    ensures Lookup(Put(t, k, v), k) == Some(v)
  {
    var r := Put(t, k, v);
    if k in Patterns(t) {
      var e :| e in t && e.pattern == k;
      var i0 :| 0 <= i0 < |t| && t[i0] == e;
      var i :| 0 <= i <= i0 && FirstAt(t, k, i) by {
        FirstAtExists(t, k, i0);
      }
      assert r == t[i := Mapping(k, v)];
      assert FirstAt(r, k, i);
    } else {
      assert FirstAt(r, k, |t|);
    }
  }

  /** Some position holding a pattern is preceded by a first one. */
  lemma {:induction false} FirstAtExists(t: seq<Mapping>, k: string, i0: int)
    requires 0 <= i0 < |t| && t[i0].pattern == k
    ensures exists i :: 0 <= i <= i0 && FirstAt(t, k, i)
    decreases i0
  {
    if !FirstAt(t, k, i0) {
      var j :| 0 <= j < i0 && t[j].pattern == k;
      FirstAtExists(t, k, j);
    }
  }

  /** Insert/lookup law: every other pattern reads as before. */
  lemma PutThenLookupOther(t: seq<Mapping>, k: string, v: string, k': string)
    requires k' != k
    ensures Lookup(Put(t, k, v), k') == Lookup(t, k')
  {
    var r := Put(t, k, v);
    if k' in Patterns(t) {
      var e :| e in t && e.pattern == k';
      var j0 :| 0 <= j0 < |t| && t[j0] == e;
      var j :| 0 <= j <= j0 && FirstAt(t, k', j) by {
        FirstAtExists(t, k', j0);
      }
      assert FirstAt(t, k', j);
      assert t[j].pattern == k';
      if k in Patterns(t) {
        var ek :| ek in t && ek.pattern == k;
        var i0 :| 0 <= i0 < |t| && t[i0] == ek;
        var i :| 0 <= i <= i0 && FirstAt(t, k, i) by {
          FirstAtExists(t, k, i0);
        }
        assert r == t[i := Mapping(k, v)];
        assert j != i;
        forall x | 0 <= x <= j
          ensures r[x].pattern == t[x].pattern || (x == i && r[x].pattern != k')
        {
        }
        assert FirstAt(r, k', j);
      } else {
        assert forall x :: 0 <= x < |t| ==> r[x] == t[x];
        assert FirstAt(r, k', j);
      }
    } else {
      assert k' !in Patterns(r);
    }
  }

  /** Assigns each entry of `es` in turn, as a loop of `$table[$k] = $v` does. */
  function PutAll(t: seq<Mapping>, es: seq<Mapping>): (r: seq<Mapping>)
    ensures Patterns(r) == Patterns(t) + Patterns(es)
    decreases |es|
  {
    if |es| == 0 then t
    else
      assert es == [es[0]] + es[1..];
      assert Patterns(es) == {es[0].pattern} + Patterns(es[1..]);
      PutAll(Put(t, es[0].pattern, es[0].handlerName), es[1..])
  }

  /** True iff no later entry of `es` has the pattern of `es[i]`. */
  predicate LastAt(es: seq<Mapping>, i: int)
  {
    0 <= i < |es| && forall j :: i < j < |es| ==> es[j].pattern != es[i].pattern
  }

  /** Assigning entries never creates a second entry for a pattern. */
  lemma {:induction false} PutAllKeepsPatternsUnique(t: seq<Mapping>, es: seq<Mapping>)
    requires UniquePatterns(t)
    ensures UniquePatterns(PutAll(t, es))
    decreases |es|
  {
    if |es| > 0 {
      PutKeepsPatternsUnique(t, es[0].pattern, es[0].handlerName);
      PutAllKeepsPatternsUnique(Put(t, es[0].pattern, es[0].handlerName), es[1..]);
    }
  }

  /**
   Entries with distinct patterns, none already stored, are appended in
   order: the table then lists the old entries followed by the new ones.
   */
  lemma {:induction false} PutAllFreshAppends(t: seq<Mapping>, es: seq<Mapping>)
    requires UniquePatterns(es)
    requires Patterns(t) !! Patterns(es)
    ensures PutAll(t, es) == t + es
    decreases |es|
  {
    if |es| > 0 {
      var e := es[0];
      var t' := Put(t, e.pattern, e.handlerName);
      FreshStep(t, es);
      calc {
        PutAll(t, es);
        PutAll(t', es[1..]);
        { PutAllFreshAppends(t', es[1..]); }
        t' + es[1..];
        { assert es == [e] + es[1..]; }
        t + es;
      }
    }
  }

  /** One step of appending fresh entries: the head is appended and the rest stay fresh. */
  lemma FreshStep(t: seq<Mapping>, es: seq<Mapping>)
    requires |es| > 0 && UniquePatterns(es) && Patterns(t) !! Patterns(es)
    ensures Put(t, es[0].pattern, es[0].handlerName) == t + [es[0]]
    ensures UniquePatterns(es[1..])
    ensures Patterns(t + [es[0]]) !! Patterns(es[1..])
  {
    PatternsCons(es);
    UniqueTail(es);
  }

  /** The tail of a table with distinct patterns has distinct patterns, none of them the head's. */
  lemma UniqueTail(t: seq<Mapping>)
    requires |t| > 0 && UniquePatterns(t)
    ensures UniquePatterns(t[1..]) && t[0].pattern !in Patterns(t[1..])
  {
    forall i, j | 0 <= i < j < |t[1..]|
      ensures t[1..][i].pattern != t[1..][j].pattern
    {
      assert t[1..][i] == t[i + 1] && t[1..][j] == t[j + 1];
    }
  }

  /**
   After assigning entries, a pattern reads the name of its LAST entry in
   `es`; a pattern `es` does not mention reads as before.
   */
  lemma {:induction false} PutAllLastWins(t: seq<Mapping>, es: seq<Mapping>)
    ensures forall i :: LastAt(es, i) ==> Lookup(PutAll(t, es), es[i].pattern) == Some(es[i].handlerName)
    ensures forall k :: k !in Patterns(es) ==> Lookup(PutAll(t, es), k) == Lookup(t, k)
    decreases |es|
  {
    if |es| > 0 {
      var e := es[0];
      var t' := Put(t, e.pattern, e.handlerName);
      var r := PutAll(t, es);
      assert es == [e] + es[1..];
      assert Patterns(es) == {e.pattern} + Patterns(es[1..]);
      PutAllLastWins(t', es[1..]);
      forall i | LastAt(es, i)
        ensures Lookup(r, es[i].pattern) == Some(es[i].handlerName)
      {
        if i == 0 {
          assert e.pattern !in Patterns(es[1..]);
          PutThenLookupSame(t, e.pattern, e.handlerName);
        } else {
          assert es[1..][i - 1] == es[i];
          assert LastAt(es[1..], i - 1);
        }
      }
      forall k | k !in Patterns(es)
        ensures Lookup(r, k) == Lookup(t, k)
      {
        PutThenLookupOther(t, e.pattern, e.handlerName, k);
      }
    }
  }

  /** ltrim($p, '/'): drops every leading slash. */
  function TrimLeadingSlashes(p: string): (r: string)
    ensures |r| <= |p| && r == p[|p| - |r|..]
    ensures |r| == 0 || r[0] != '/'
    ensures forall i :: 0 <= i < |p| - |r| ==> p[i] == '/'
  {
    if |p| > 0 && p[0] == '/' then TrimLeadingSlashes(p[1..]) else p
  }

  /** A stored pattern starts with exactly one slash. */
  predicate Normalised(p: string)
  {
    |p| > 0 && p[0] == '/' && (|p| == 1 || p[1] != '/')
  }

  /** '/' . ltrim($p, '/'): the key under which a declared pattern is stored. */
  function Normalise(p: string): (r: string)
    ensures Normalised(r)
  {
    "/" + TrimLeadingSlashes(p)
  }

  /** A pattern that already starts with exactly one slash is left as it is. */
  lemma {:induction false} NormaliseFixesNormalised(p: string)
    requires Normalised(p)
    ensures Normalise(p) == p
  {
    assert TrimLeadingSlashes(p) == TrimLeadingSlashes(p[1..]);
    assert TrimLeadingSlashes(p[1..]) == p[1..];
    assert p == "/" + p[1..];
  }

  /** Normalising twice is normalising once. */
  lemma NormaliseIdempotent(p: string)
    ensures Normalise(Normalise(p)) == Normalise(p)
  {
    NormaliseFixesNormalised(Normalise(p));
  }

  /** Two declared patterns share a stored key iff they differ only in their leading slashes. */
  lemma NormaliseIgnoresLeadingSlashes(p: string, q: string)
    ensures Normalise(p) == Normalise(q) <==> TrimLeadingSlashes(p) == TrimLeadingSlashes(q)
  {
    if Normalise(p) == Normalise(q) {
      assert Normalise(p)[1..] == TrimLeadingSlashes(p);
      assert Normalise(q)[1..] == TrimLeadingSlashes(q);
    }
  }
}
