/** Values and string helpers shared by every module: optional values,
    results, bytes, JavaScript's `Array.prototype.join` and
    `String.prototype.split` on one character, substring search, and
    string records (`Record<string, string>`) in their enumeration order. */
module Common {

  datatype Option<+T> = None | Some(value: T) {
    /** `x ?? default` */
    function GetOr(default: T): T {
      if Some? then value else default
    }
  }

  datatype Result<+T, +E> = Ok(value: T) | Err(error: E)

  /** One byte, as `Uint8Array` holds it. */
  type byte = x: int | 0 <= x < 256

  // ---------------------------------------------------------------------
  // join and split

  /** `ws.join(sep)` */
  function Join(ws: seq<string>, sep: string): string
  {
    if |ws| == 0 then ""
    else if |ws| == 1 then ws[0]
    else ws[0] + sep + Join(ws[1..], sep)
  }

  /** Joining two non-empty lists puts one separator between their joins. */
  lemma {:induction false} JoinAppend(a: seq<string>, b: seq<string>, sep: string)
    requires |a| >= 1 && |b| >= 1
    ensures Join(a + b, sep) == Join(a, sep) + sep + Join(b, sep)
    decreases |a|
  {
    assert (a + b)[0] == a[0];
    assert (a + b)[1..] == a[1..] + b;
    if |a| > 1 {
      JoinAppend(a[1..], b, sep);
    }
  }

  /** The position of the first `c` in `s`, if any. */
  function FirstIndex(s: string, c: char): (r: Option<nat>)
    ensures r.None? <==> c !in s
    ensures r.Some? ==> r.value < |s| && s[r.value] == c && c !in s[..r.value]
  {
    if |s| == 0 then None
    else if s[0] == c then Some(0)
    else
      match FirstIndex(s[1..], c)
      case None => None
      case Some(i) =>
        assert s[..i + 1] == [s[0]] + s[1..][..i];
        Some(i + 1)
  }

  /** The first `c` of `a + [c] + b` is the one between the halves, when `a` has none. */
  lemma FirstIndexAfter(a: string, c: char, b: string)
    requires c !in a
    ensures FirstIndex(a + [c] + b, c) == Some(|a|)
  {
    var s := a + [c] + b;
    assert s[|a|] == c;
    assert forall j :: 0 <= j < |a| ==> s[j] == a[j];
    var r := FirstIndex(s, c);
  }

  /** The last index of `c` in `s`, if any. */
  function LastIndex(s: string, c: char): (r: Option<nat>)
    ensures r.None? <==> c !in s
    ensures r.Some? ==> r.value < |s| && s[r.value] == c && c !in s[r.value + 1..]
    decreases |s|
  {
    if |s| == 0 then None
    else if s[|s| - 1] == c then Some(|s| - 1)
    else
      var init := s[..|s| - 1];
      assert s == init + [s[|s| - 1]];
      match LastIndex(init, c)
      case None => None
      case Some(i) =>
        assert s[i + 1..] == init[i + 1..] + [s[|s| - 1]];
        Some(i)
  }

  /** The separator in front of a text without it is the last one. */
  lemma LastIndexBefore(a: string, c: char, b: string)
    requires c !in b
    ensures LastIndex(a + [c] + b, c) == Some(|a|)
  {
    var s := a + [c] + b;
    assert s[|a|] == c;
    assert s[|a| + 1..] == b;
    var r := LastIndex(s, c);
  }

  /** `s.split(c)` for a one-character separator. */
  function Split(s: string, c: char): (r: seq<string>)
    ensures |r| >= 1
    ensures forall i :: 0 <= i < |r| ==> c !in r[i]
    decreases |s|
  {
    match FirstIndex(s, c)
    case None => [s]
    case Some(i) => [s[..i]] + Split(s[i + 1..], c)
  }

  /** Joining the pieces of a split with the separator gives back the string. */
  lemma {:induction false} JoinSplit(s: string, c: char)
    ensures Join(Split(s, c), [c]) == s
    decreases |s|
  {
    match FirstIndex(s, c)
    case None =>
    case Some(i) =>
      JoinSplit(s[i + 1..], c);
      assert Split(s, c) == [s[..i]] + Split(s[i + 1..], c);
      assert s == s[..i] + [c] + s[i + 1..];
  }

  /** Splitting a join gives back the pieces, when no piece holds the separator. */
  lemma {:induction false} SplitJoin(ws: seq<string>, c: char)
    requires |ws| >= 1
    requires forall i :: 0 <= i < |ws| ==> c !in ws[i]
    ensures Split(Join(ws, [c]), c) == ws
  {
    if |ws| > 1 {
      var w, tail := ws[0], ws[1..];
      var rest := Join(tail, [c]);
      var s := w + [c] + rest;
      assert Join(ws, [c]) == s;
      FirstIndexAfter(w, c, rest);
      assert s[..|w|] == w;
      assert s[|w| + 1..] == rest;
      assert Split(s, c) == [w] + Split(rest, c);
      assert forall i :: 0 <= i < |tail| ==> tail[i] == ws[i + 1];
      SplitJoin(tail, c);
      assert ws == [w] + tail;
    }
  }

  // ---------------------------------------------------------------------
  // substring search

  /** `s.includes(sub)` */
  function Contains(s: string, sub: string): bool
    decreases |s|
  {
    if |sub| <= |s| && s[..|sub|] == sub then true
    else if |s| == 0 then false
    else Contains(s[1..], sub)
  }

  /** `sub` sits in `s` at position `i`. */
  ghost predicate OccursAt(s: string, sub: string, i: int)
  {
    0 <= i <= |s| - |sub| && s[i..i + |sub|] == sub
  }

  /** `Contains` is substring search: it holds exactly when `sub` occurs somewhere. */
  lemma {:induction false} ContainsSpec(s: string, sub: string)
    ensures Contains(s, sub) <==> exists i :: OccursAt(s, sub, i)
    decreases |s|
  {
    if |sub| <= |s| && s[..|sub|] == sub {
      assert OccursAt(s, sub, 0);
    } else if |s| == 0 {
    } else {
      ContainsSpec(s[1..], sub);
      forall i | 1 <= i <= |s| - |sub|
        ensures OccursAt(s, sub, i) <==> OccursAt(s[1..], sub, i - 1)
      {
        assert s[i..i + |sub|] == s[1..][i - 1..i - 1 + |sub|];
      }
      if Contains(s[1..], sub) {
        var j :| OccursAt(s[1..], sub, j);
        assert OccursAt(s, sub, j + 1);
      }
      assert !OccursAt(s, sub, 0);
    }
  }

  /** A string contains every one of its infixes. */
  lemma ContainsInfix(a: string, sub: string, b: string)
    ensures Contains(a + sub + b, sub)
  {
    var s := a + sub + b;
    assert s[|a|..|a| + |sub|] == sub;
    assert OccursAt(s, sub, |a|);
    ContainsSpec(s, sub);
  }

  // ---------------------------------------------------------------------
  // Record<string, string>

  /** A string record in the order `Object.entries` enumerates it. */
  type Entries = seq<(string, string)>

  /** `Object.keys(r)` */
  function Keys(r: Entries): (ks: seq<string>)
    ensures |ks| == |r|
  {
    if |r| == 0 then [] else [r[0].0] + Keys(r[1..])
  }

  /** What makes a sequence of pairs a record: no key twice. */
  ghost predicate DistinctKeys(r: Entries)
  {
    forall i, j :: 0 <= i < j < |r| ==> Keys(r)[i] != Keys(r)[j]
  }

  /** `r[k]`, with `undefined` as `None`. */
  function Lookup(r: Entries, k: string): (v: Option<string>)
  {
    if |r| == 0 then None
    else if r[0].0 == k then Some(r[0].1)
    else Lookup(r[1..], k)
  }

  /** The property assignment `r[k] = v`: an existing key keeps its place
      and takes the new value, a new key goes last. */
  function Put(r: Entries, k: string, v: string): Entries
  {
    if |r| == 0 then [(k, v)]
    else if r[0].0 == k then [(k, v)] + r[1..]
    else [r[0]] + Put(r[1..], k, v)
  }

  /** A key reads as defined exactly when it is one of the record's keys. */
  lemma {:induction false} LookupDefined(r: Entries, k: string)
    ensures Lookup(r, k).Some? <==> k in Keys(r)
  {
    if |r| > 0 {
      LookupDefined(r[1..], k);
      assert Keys(r) == [r[0].0] + Keys(r[1..]);
    }
  }

  /** Assignment appends a new key and leaves the key order alone otherwise. */
  lemma {:induction false} PutKeys(r: Entries, k: string, v: string)
    ensures Keys(Put(r, k, v)) == if k in Keys(r) then Keys(r) else Keys(r) + [k]
  {
    if |r| > 0 && r[0].0 != k {
      PutKeys(r[1..], k, v);
      assert Keys(r) == [r[0].0] + Keys(r[1..]);
      assert Keys(Put(r, k, v)) == [r[0].0] + Keys(Put(r[1..], k, v));
    } else if |r| > 0 {
      assert Keys(r) == [k] + Keys(r[1..]);
      assert Keys(Put(r, k, v)) == [k] + Keys(r[1..]);
    }
  }

  /** After `r[k] = v`, `k` reads `v` and every other key reads as before. */
  lemma {:induction false} PutLookup(r: Entries, k: string, v: string, k': string)
    ensures Lookup(Put(r, k, v), k') == if k' == k then Some(v) else Lookup(r, k')
  {
    if |r| > 0 && r[0].0 != k {
      PutLookup(r[1..], k, v, k');
    }
  }

  /** Assigning a key the record does not have appends it. */
  lemma {:induction false} PutNew(r: Entries, k: string, v: string)
    requires k !in Keys(r)
    ensures Put(r, k, v) == r + [(k, v)]
  {
    if |r| > 0 {
      assert Keys(r) == [r[0].0] + Keys(r[1..]);
      PutNew(r[1..], k, v);
      assert r == [r[0]] + r[1..];
    }
  }

  /** Assignment keeps a record a record. */
  lemma PutDistinct(r: Entries, k: string, v: string)
    requires DistinctKeys(r)
    ensures DistinctKeys(Put(r, k, v))
  {
    PutKeys(r, k, v);
  }
}
