/** How the document store reads the keys of a `$set`: a key with a dot,
    such as "custodyLog.0.officer", names a path. The write goes into the
    embedded document or array held by the field before the first dot.
    Embedded documents that are missing are created on the way. A numeric
    step into an array writes that position, padding the array with nulls.
    A step into any other kind of value, an empty step, and two keys of
    which one continues the other are refused, and then nothing is written. */
module Paths {
  import opened Base
  import opened Json
  import Text

  /** The position of the first dot in `k`, or `|k|` when it has none. */
  function FirstDot(k: string): (i: nat)
    ensures i <= |k|
    ensures i < |k| ==> k[i] == '.'
  {
    DotFrom(k, 0)
  }

  /** The position of the first dot in `k` at `j` or after, or `|k|`. */
  function DotFrom(k: string, j: nat): (i: nat)
    requires j <= |k|
    ensures j <= i <= |k|
    ensures i < |k| ==> k[i] == '.'
    decreases |k| - j
  {
    if j == |k| || k[j] == '.' then j else DotFrom(k, j + 1)
  }

  /** The key names a path rather than a field: it has a dot. */
  predicate Dotted(k: string) {
    FirstDot(k) < |k|
  }

  /** No dot comes before the first one, so a key has a dot exactly when
      it is dotted. */
  lemma NoDotBefore(k: string)
    ensures forall j | 0 <= j < FirstDot(k) :: k[j] != '.'
    ensures Dotted(k) <==> '.' in k
  {
    NoDotFrom(k, 0);
  }

  lemma {:induction false} NoDotFrom(k: string, j: nat)
    requires j <= |k|
    ensures forall t | j <= t < DotFrom(k, j) :: k[t] != '.'
    decreases |k| - j
  {
    if j < |k| && k[j] != '.' {
      NoDotFrom(k, j + 1);
    }
  }

  /** The field a key writes at the top: the text before its first dot. */
  function Head(k: string): string {
    k[..FirstDot(k)]
  }

  /** The rest of a path after its first step. */
  function Tail(k: string): string
    requires Dotted(k)
  {
    NoDotBefore(k);
    k[FirstDot(k) + 1..]
  }

  /** The fields the keys of `patch` write at the top. */
  function Heads(patch: Doc): set<string> {
    set k | k in patch :: Head(k)
  }

  /** The fields the dotted keys of `patch` write into. */
  function DottedHeads(patch: Doc): set<string> {
    set k | k in patch && Dotted(k) :: Head(k)
  }

  /** The keys of `patch` below field `p`, with the first step removed. */
  function Sub(patch: Doc, p: string): Doc {
    TailInjective(patch, p);
    map k | k in patch && Dotted(k) && Head(k) == p :: Tail(k) := patch[k]
  }

  /** No two dotted keys under the same field share a tail. */
  lemma TailInjective(patch: Doc, p: string)
    ensures forall a, b | a in patch && b in patch && Dotted(a) && Dotted(b) && Head(a) == p && Head(b) == p &&
      Tail(a) == Tail(b) :: a == b
  {
    forall a, b | a in patch && b in patch && Dotted(a) && Dotted(b) && Head(a) == p && Head(b) == p && Tail(a) == Tail(b)
      ensures a == b
    {
      SplitAtDot(a);
      SplitAtDot(b);
    }
  }

  /** A dotted key is its head, a dot and its tail; the head has no dot
      and the tail is shorter than the key. */
  lemma SplitAtDot(k: string)
    requires Dotted(k)
    ensures k == Head(k) + "." + Tail(k)
    ensures !Dotted(Head(k)) && |Tail(k)| < |k|
  {
    var i := FirstDot(k);
    NoDotBefore(k);
    assert k == k[..i] + [k[i]] + k[i + 1..];
  }

  /** A key without a dot is its own head. */
  lemma HeadOfPlain(k: string)
    requires !Dotted(k)
    ensures Head(k) == k
  {
    NoDotBefore(k);
  }

  /** The path `a.b` whose first step `a` has no dot starts with `a`. */
  lemma HeadOfPath(a: string, b: string)
    requires !Dotted(a)
    ensures Dotted(a + "." + b) && Head(a + "." + b) == a && Tail(a + "." + b) == b
  {
    var k := a + "." + b;
    assert k[|a|] == '.';
    var i := FirstDot(k);
    NoDotBefore(k);
    NoDotBefore(a);
    assert i == |a|;
    assert k[..i] == a;
    assert k[i + 1..] == b;
  }

  /** A step into an array: the decimal text of a position, without
      leading zeros. */
  predicate IsIndex(h: string) {
    (forall i | 0 <= i < |h| :: Text.IsDigit(h[i])) && Text.NatToString(Text.ParseDigits(h)) == h
  }

  /** The position an index step names. */
  function IndexOf(h: string): nat
    requires IsIndex(h)
  {
    Text.ParseDigits(h)
  }

  /** Distinct positions have distinct index texts. */
  lemma IndexTextInjective(i: nat, j: nat)
    requires Text.NatToString(i) == Text.NatToString(j)
    ensures i == j
  {
    Text.ParseNatToString(i);
    Text.ParseNatToString(j);
  }

  /** The decimal text of a position is an index step naming it. */
  lemma IndexOfText(i: nat)
    ensures IsIndex(Text.NatToString(i)) && IndexOf(Text.NatToString(i)) == i
  {
    Text.ParseNatToString(i);
  }

  /** The keys are well formed: no empty first step, and no key that
      continues a plain key of the same patch. */
  predicate PathsValid(patch: Doc) {
    forall k | k in patch :: Head(k) != "" && (Dotted(k) ==> Head(k) !in patch)
  }

  /** An array seen as the document whose fields are its positions. */
  function ArrayDoc(items: seq<Value>): Doc {
    IndexInjective(|items|);
    map i | 0 <= i < |items| :: Text.NatToString(i) := items[i]
  }

  /** Position `j` of the array is the field named by its decimal text. */
  lemma ArrayDocAt(items: seq<Value>, j: nat)
    requires j < |items|
    ensures Text.NatToString(j) in ArrayDoc(items) && ArrayDoc(items)[Text.NatToString(j)] == items[j]
  {
    IndexInjective(|items|);
  }

  lemma IndexInjective(n: nat)
    ensures forall i, j | 0 <= i < n && 0 <= j < n && Text.NatToString(i) == Text.NatToString(j) :: i == j
  {
    forall i, j | 0 <= i < n && 0 <= j < n && Text.NatToString(i) == Text.NatToString(j)
      ensures i == j
    {
      IndexTextInjective(i, j);
    }
  }

  /** The positions the keys of `sub` name. */
  function Indices(sub: Doc): set<nat>
    requires forall k | k in sub :: IsIndex(Head(k))
  {
    set k | k in sub :: IndexOf(Head(k))
  }

  /** The largest number of a set, 0 for the empty set. */
  function MaxOf(s: set<nat>): (r: nat)
    ensures forall x | x in s :: x <= r
    ensures s != {} ==> r in s
  {
    if s == {} then 0
    else
      MaxExists(s);
      var x :| x in s && forall y | y in s :: y <= x;
      x
  }

  lemma {:induction false} MaxExists(s: set<nat>)
    requires s != {}
    ensures exists x :: x in s && forall y | y in s :: y <= x
    decreases |s|
  {
    var a :| a in s;
    if s != {a} {
      MaxExists(s - {a});
      var x :| x in s - {a} && forall y | y in s - {a} :: y <= x;
      var z := if a <= x then x else a;
      forall y | y in s
        ensures y <= z
      {
        if y != a {
          assert y in s - {a};
        }
      }
    }
  }

  /** The length of an array after writes at the positions `ps`. */
  function GrownLength(n: nat, ps: set<nat>): nat {
    if ps == {} || MaxOf(ps) < n then n else MaxOf(ps) + 1
  }

  /** The positions `0 .. n` of a document seen as an array; a position
      nothing was written at holds null. */
  function DocArray(m: Doc, n: nat): seq<Value> {
    seq(n, i requires 0 <= i < n => if Text.NatToString(i) in m then m[Text.NatToString(i)] else Null)
  }

  /** The document a write inside `v` works on: an empty one for a
      missing field, the fields of an embedded document, the positions of
      an array; nothing else can be written into. */
  function Inside(v: Value): Option<Doc> {
    match v
    case Undefined => Some(map[])
    case Obj(fm) => Some(fm)
    case Arr(items) => Some(ArrayDoc(items))
    case _ => None
  }

  /** What the written document `r` makes of `v`: the array grown to the
      positions `sub` names, or an embedded document. */
  function Rebuild(v: Value, r: Doc, sub: Doc): Value
    requires v.Arr? ==> forall k | k in sub :: IsIndex(Head(k))
  {
    if v.Arr? then Arr(DocArray(r, GrownLength(|v.items|, Indices(sub)))) else Obj(r)
  }

  /** The keys under `p` are shorter than the keys of `patch`. */
  lemma SubShorter(patch: Doc, bound: nat)
    requires forall k {:trigger k in patch} | k in patch :: |k| <= bound
    ensures forall p | p in DottedHeads(patch) :: bound >= 1 && forall k {:trigger k in Sub(patch, p)} | k in Sub(patch, p) :: |k| <= bound - 1
  {
    forall p | p in DottedHeads(patch)
      ensures bound >= 1 && forall k {:trigger k in Sub(patch, p)} | k in Sub(patch, p) :: |k| <= bound - 1
    {
      var a :| a in patch && Dotted(a) && Head(a) == p;
      SplitAtDot(a);
      forall k | k in Sub(patch, p)
        ensures |k| <= bound - 1
      {
        var b :| b in patch && Dotted(b) && Head(b) == p && Tail(b) == k;
        SplitAtDot(b);
      }
    }
  }

  /** `$set` of the keys of `patch` on the document `m`; `None` when the
      store refuses the write. `bound` bounds the length of the keys. */
  function SetIn(m: Doc, patch: Doc, ghost bound: nat): Option<Doc>
    requires forall k {:trigger k in patch} | k in patch :: |k| <= bound
    decreases bound, 1
  {
    if !PathsValid(patch) then None
    else
      var subs := SubWrites(m, patch, bound);
      if exists p | p in subs :: subs[p].None? then None
      else Some(Written(m, patch, Values(subs)))
  }

  /** What the dotted keys under each field leave in it. */
  function SubWrites(m: Doc, patch: Doc, ghost bound: nat): (r: map<string, Option<Value>>)
    requires forall k {:trigger k in patch} | k in patch :: |k| <= bound
    ensures r.Keys == DottedHeads(patch)
    decreases bound, 0
  {
    SubShorter(patch, bound);
    map p | p in DottedHeads(patch) :: SetValue(Get(m, p), Sub(patch, p), bound - 1)
  }

  /** The values of writes that all succeeded. */
  function Values(subs: map<string, Option<Value>>): (r: Doc)
    requires forall p | p in subs :: subs[p].Some?
    ensures r.Keys == subs.Keys
  {
    map p | p in subs :: subs[p].value
  }

  /** The plain keys of `patch`, which name fields. */
  function PlainKeys(patch: Doc): set<string> {
    set k | k in patch && !Dotted(k)
  }

  /** `m` with the plain keys of `patch` set to their values and the
      fields of `written` replaced by the values the dotted keys left in
      them. */
  function Written(m: Doc, patch: Doc, written: Doc): Doc {
    map f | f in m.Keys + PlainKeys(patch) + written.Keys ::
      if f in patch && !Dotted(f) then patch[f] else if f in written then written[f] else m[f]
  }

  /** The writes of `sub` inside the value `v` of one field. */
  function SetValue(v: Value, sub: Doc, ghost bound: nat): Option<Value>
    requires forall k {:trigger k in sub} | k in sub :: |k| <= bound
    decreases bound, 2
  {
    if Inside(v).None? || (v.Arr? && !forall k | k in sub :: IsIndex(Head(k))) then None
    else
      var r := SetIn(Inside(v).value, sub, bound);
      if r.None? then None else Some(Rebuild(v, r.value, sub))
  }

  /** A bound on the length of the keys of `patch`. */
  ghost function KeyBound(patch: Doc): (b: nat)
    ensures forall k {:trigger k in patch} | k in patch :: |k| <= b
  {
    LengthBound(patch.Keys)
  }

  ghost function LengthBound(keys: set<string>): (b: nat)
    ensures forall k {:trigger k in keys} | k in keys :: |k| <= b
    decreases |keys|
  {
    if keys == {} then 0
    else
      var a :| a in keys;
      var b := LengthBound(keys - {a});
      assert forall k | k in keys :: k == a || k in keys - {a};
      if |a| <= b then b else |a|
  }

  /** `$set: patch` on the document `d`. */
  function SetPaths(d: Doc, patch: Doc): Option<Doc> {
    SetIn(d, patch, KeyBound(patch))
  }

  /** `patch` without every key whose first step is one of `names`. */
  function WithoutPaths(patch: Doc, names: set<string>): (r: Doc)
    ensures r.Keys <= patch.Keys
    ensures forall k | k in r :: r[k] == patch[k]
  {
    map k | k in patch && Head(k) !in names :: patch[k]
  }

  // ----------------------------------------------------------- properties

  /** The strip leaves no key that starts with a stripped name, keeps
      every other key, and writes no field the patch did not. */
  lemma WithoutPathsHeads(patch: Doc, names: set<string>)
    ensures var r := WithoutPaths(patch, names);
      && (forall f | f in names :: f !in Heads(r))
      && Heads(r) <= Heads(patch)
      && (forall k | k in patch && Head(k) !in names :: k in r)
  {
  }

  /** On plain keys the strip of paths is the strip of fields. */
  lemma WithoutPathsPlain(patch: Doc, names: set<string>)
    requires forall k | k in patch :: !Dotted(k)
    ensures WithoutPaths(patch, names) == Without(patch, names)
  {
    forall k | k in patch
      ensures Head(k) == k
    {
      HeadOfPlain(k);
    }
  }

  /** Adding a plain key adds its own name to the fields written. */
  lemma HeadsWith(patch: Doc, k: string, v: Value)
    requires !Dotted(k)
    ensures Heads(patch[k := v]) == Heads(patch) + {k}
  {
    HeadOfPlain(k);
  }


  /** Every field a key writes is named by a plain key or is the head of a
      dotted one. */
  lemma HeadsSplit(patch: Doc)
    ensures Heads(patch) == PlainKeys(patch) + DottedHeads(patch)
  {
    forall k | k in patch && !Dotted(k)
      ensures Head(k) == k
    {
      HeadOfPlain(k);
    }
  }

  /** A patch of plain, non-empty keys is merged into the document. */
  lemma SetInPlain(m: Doc, patch: Doc, bound: nat)
    requires forall k {:trigger k in patch} | k in patch :: |k| <= bound
    requires forall k | k in patch :: !Dotted(k) && k != ""
    ensures SetIn(m, patch, bound) == Some(Merge(m, patch))
  {
    forall k | k in patch
      ensures Head(k) == k
    {
      HeadOfPlain(k);
    }
    assert PathsValid(patch);
    assert DottedHeads(patch) == {};
    assert PlainKeys(patch) == patch.Keys;
    assert SubWrites(m, patch, bound) == map[];
    assert Values(map[]) == map[];
    var r := Written(m, patch, map[]);
    assert r.Keys == m.Keys + patch.Keys;
    assert r == Merge(m, patch);
  }

  /** A `$set` that the store accepts has well-formed keys, gives every
      plain key its value, and keeps every field no key starts with. */
  lemma SetInEffect(m: Doc, patch: Doc, bound: nat)
    requires forall k {:trigger k in patch} | k in patch :: |k| <= bound
    requires SetIn(m, patch, bound).Some?
    ensures var r := SetIn(m, patch, bound).value;
      && PathsValid(patch)
      && r.Keys == m.Keys + Heads(patch)
      && (forall f | f in patch && !Dotted(f) :: r[f] == patch[f])
      && (forall f | f in m && f !in Heads(patch) :: r[f] == m[f])
  {
    HeadsSplit(patch);
  }

  /** The writes inside a missing field or an embedded document, once
      the writes inside the document it stands for are known. */
  lemma SetValueDoc(v: Value, sub: Doc, bound: nat, r: Doc)
    requires forall k {:trigger k in sub} | k in sub :: |k| <= bound
    requires v.Undefined? || v.Obj?
    requires SetIn(Inside(v).value, sub, bound) == Some(r)
    ensures SetValue(v, sub, bound) == Some(Obj(r))
  {
  }

  /** Writing one plain, non-empty key `q` inside a missing field makes an
      embedded document holding `q`; inside an embedded document it sets
      `q` there. */
  lemma SetValueOne(v: Value, q: string, x: Value, bound: nat)
    requires |q| <= bound && !Dotted(q) && q != ""
    requires v.Undefined? || v.Obj?
    ensures SetValue(v, map[q := x], bound) == Some(Obj(Merge(Inside(v).value, map[q := x])))
  {
    assert SetIn(Inside(v).value, map[q := x], bound) == Some(Merge(Inside(v).value, map[q := x])) by {
      HeadOfPlain(q);
      SetInPlain(Inside(v).value, map[q := x], bound);
    }
    SetValueDoc(v, map[q := x], bound, Merge(Inside(v).value, map[q := x]));
  }

  /** The decimal text of a position is a plain key naming that position
      alone. */
  lemma IndexKey(i: nat, x: Value)
    ensures var q := Text.NatToString(i);
      && !Dotted(q) && q != "" && Head(q) == q && IsIndex(q) && IndexOf(q) == i
      && Indices(map[q := x]) == {i}
  {
    var q := Text.NatToString(i);
    IndexOfText(i);
    assert !Dotted(q) by {
      assert forall j | 0 <= j < |q| :: Text.IsDigit(q[j]);
    }
    HeadOfPlain(q);
  }

  /** The array `items` with position `i` set through its document view. */
  lemma ArrayDocWrite(items: seq<Value>, i: nat, x: Value)
    requires i < |items|
    ensures DocArray(Merge(ArrayDoc(items), map[Text.NatToString(i) := x]), |items|) == items[i := x]
  {
    var m := Merge(ArrayDoc(items), map[Text.NatToString(i) := x]);
    forall j | 0 <= j < |items|
      ensures DocArray(m, |items|)[j] == items[i := x][j]
    {
      if j != i {
        ArrayDocAt(items, j);
        if Text.NatToString(i) == Text.NatToString(j) {
          IndexTextInjective(i, j);
        }
      }
    }
  }

  /** A write inside the array does not grow it. */
  lemma GrownWithin(n: nat, i: nat)
    requires i < n
    ensures GrownLength(n, {i}) == n
  {
    assert MaxOf({i}) == i;
  }

  /** The writes inside an array, once the writes inside its document
      view are known. */
  lemma SetValueArr(items: seq<Value>, sub: Doc, bound: nat, r: Doc)
    requires forall k {:trigger k in sub} | k in sub :: |k| <= bound
    requires forall k | k in sub :: IsIndex(Head(k))
    requires SetIn(ArrayDoc(items), sub, bound) == Some(r)
    ensures SetValue(Arr(items), sub, bound) == Some(Arr(DocArray(r, GrownLength(|items|, Indices(sub)))))
  {
  }

  /** Writing position `i` of an array that has one replaces it. */
  lemma SetItemOne(items: seq<Value>, i: nat, x: Value, bound: nat)
    requires i < |items| && |Text.NatToString(i)| <= bound
    ensures SetValue(Arr(items), map[Text.NatToString(i) := x], bound) == Some(Arr(items[i := x]))
  {
    var q := Text.NatToString(i);
    var sub := map[q := x];
    var m := Merge(ArrayDoc(items), sub);
    assert Indices(sub) == {i} && forall k | k in sub :: IsIndex(Head(k)) by {
      IndexKey(i, x);
    }
    assert SetIn(ArrayDoc(items), sub, bound) == Some(m) by {
      IndexKey(i, x);
      SetInPlain(ArrayDoc(items), sub, bound);
    }
    GrownWithin(|items|, i);
    ArrayDocWrite(items, i, x);
    SetValueArr(items, sub, bound, m);
  }

  /** What writing the one plain key `q` inside the value `v` leaves there:
      a missing field becomes an embedded document holding `q`, an
      embedded document gets `q`, and an existing position of an array is
      replaced. */
  predicate WritesTo(v: Value, q: string, x: Value, w: Value) {
    || (v.Undefined? && w == Obj(map[q := x]))
    || (v.Obj? && w == Obj(v.fields[q := x]))
    || (v.Arr? && IsIndex(q) && IndexOf(q) < |v.items| && w == Arr(v.items[IndexOf(q) := x]))
  }

  lemma WritesToSetValue(v: Value, q: string, x: Value, w: Value, bound: nat)
    requires WritesTo(v, q, x, w) && |q| <= bound && !Dotted(q) && q != ""
    ensures SetValue(v, map[q := x], bound) == Some(w)
  {
    if v.Arr? {
      SetItemOne(v.items, IndexOf(q), x, bound);
    } else {
      SetValueOne(v, q, x, bound);
      if v.Undefined? {
        assert Merge(map[], map[q := x]) == map[q := x];
      } else {
        assert Merge(v.fields, map[q := x]) == v.fields[q := x];
      }
    }
  }

  /** The keys of `plain` and one dotted `key`: well formed when the key
      starts with a field `plain` does not name, and `plain` holds the
      plain keys. */
  lemma OnePathShape(plain: Doc, key: string, x: Value)
    requires forall k | k in plain :: !Dotted(k) && k != ""
    requires Dotted(key) && Head(key) != "" && Head(key) !in plain
    ensures var patch := plain[key := x];
      PathsValid(patch) && PlainKeys(patch) == plain.Keys
  {
    SplitAtDot(key);
    forall k | k in plain
      ensures Head(k) == k
    {
      HeadOfPlain(k);
    }
  }

  /** The key's head is the only field written into, with the key's tail
      alone, and the tail is shorter than every bound on the keys. */
  lemma OnePathSub(plain: Doc, key: string, x: Value)
    requires forall k | k in plain :: !Dotted(k)
    requires Dotted(key)
    ensures var patch := plain[key := x];
      && DottedHeads(patch) == {Head(key)} && Sub(patch, Head(key)) == map[Tail(key) := x]
      && |Tail(key)| < KeyBound(patch)
  {
    var patch := plain[key := x];
    assert forall k | k in patch && Dotted(k) :: k == key;
    TailInjective(patch, Head(key));
    SplitAtDot(key);
    assert key in patch;
  }

  /** A `$set` with valid paths whose writes inside fields all succeed. */
  lemma SetInWith(m: Doc, patch: Doc, bound: nat, subs: map<string, Option<Value>>)
    requires forall k {:trigger k in patch} | k in patch :: |k| <= bound
    requires PathsValid(patch) && SubWrites(m, patch, bound) == subs
    requires forall p | p in subs :: subs[p].Some?
    ensures SetIn(m, patch, bound) == Some(Written(m, patch, Values(subs)))
  {
  }

  /** The document after the plain keys of `patch`, which are those of
      `plain`, and the write `w` in field `p`. */
  lemma WrittenOne(m: Doc, patch: Doc, plain: Doc, written: Doc, p: string, w: Value)
    requires PlainKeys(patch) == plain.Keys && forall k | k in plain :: patch[k] == plain[k]
    requires p !in plain && written.Keys == {p} && written[p] == w
    ensures Written(m, patch, written) == Merge(m, plain)[p := w]
  {
  }

  /** `$set` of one plain field and one dotted key that starts
      elsewhere. */
  lemma SetFieldAndPath(m: Doc, f: string, y: Value, key: string, x: Value, w: Value)
    requires !Dotted(f) && f != ""
    requires Dotted(key) && Head(key) != "" && Head(key) != f
    requires !Dotted(Tail(key)) && Tail(key) != "" && WritesTo(Get(m, Head(key)), Tail(key), x, w)
    ensures SetPaths(m, map[key := x][f := y]) == Some(m[f := y][Head(key) := w])
  {
    assert key != f;
    assert map[key := x][f := y] == map[f := y][key := x];
    SetPathAfterField(m, f, y, key, x, w);
  }

  lemma SetPathAfterField(m: Doc, f: string, y: Value, key: string, x: Value, w: Value)
    requires !Dotted(f) && f != ""
    requires Dotted(key) && Head(key) != "" && Head(key) != f
    requires !Dotted(Tail(key)) && Tail(key) != "" && WritesTo(Get(m, Head(key)), Tail(key), x, w)
    ensures SetPaths(m, map[f := y][key := x]) == Some(m[f := y][Head(key) := w])
  {
    SetOnePath(m, map[f := y], key, x, w);
    assert Merge(m, map[f := y]) == m[f := y];
  }

  /** `$set` of plain keys and one dotted key: the plain keys are merged
      and the field the dotted key starts with takes what the write of the
      rest of its path inside it gives. */
  lemma SetOnePath(m: Doc, plain: Doc, key: string, x: Value, w: Value)
    requires forall k | k in plain :: !Dotted(k) && k != ""
    requires Dotted(key) && Head(key) != "" && Head(key) !in plain
    requires !Dotted(Tail(key)) && Tail(key) != "" && WritesTo(Get(m, Head(key)), Tail(key), x, w)
    ensures SetPaths(m, plain[key := x]) == Some(Merge(m, plain)[Head(key) := w])
  {
    var patch := plain[key := x];
    var bound := KeyBound(patch);
    var subs := SubWrites(m, patch, bound);
    OnePathShape(plain, key, x);
    OnePathSubWrites(m, plain, key, x, w);
    SetInWith(m, patch, bound, subs);
    WrittenOne(m, patch, plain, Values(subs), Head(key), w);
  }

  /** The one dotted key writes `w` into the field it starts with. */
  lemma OnePathSubWrites(m: Doc, plain: Doc, key: string, x: Value, w: Value)
    requires forall k | k in plain :: !Dotted(k)
    requires Dotted(key) && !Dotted(Tail(key)) && Tail(key) != "" && WritesTo(Get(m, Head(key)), Tail(key), x, w)
    ensures var patch := plain[key := x];
      var subs := SubWrites(m, patch, KeyBound(patch));
      subs.Keys == {Head(key)} && subs[Head(key)] == Some(w)
  {
    var patch := plain[key := x];
    var bound := KeyBound(patch);
    var p, q := Head(key), Tail(key);
    OnePathSub(plain, key, x);
    SubWritesPath(m, patch, bound, p, q, x, w);
  }

  /** The write of the one key `q` under the one field `p` the dotted
      keys start with. */
  lemma SubWritesPath(m: Doc, patch: Doc, bound: nat, p: string, q: string, x: Value, w: Value)
    requires forall k {:trigger k in patch} | k in patch :: |k| <= bound
    requires DottedHeads(patch) == {p} && Sub(patch, p) == map[q := x] && |q| < bound
    requires !Dotted(q) && q != "" && WritesTo(Get(m, p), q, x, w)
    ensures var subs := SubWrites(m, patch, bound);
      subs.Keys == {p} && subs[p] == Some(w)
  {
    WritesToSetValue(Get(m, p), q, x, w, bound - 1);
  }
}
