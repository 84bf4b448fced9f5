/**
 * The record lookups the map views run on the geometry service's answer
 * before centring the map: `.filter(...)` followed by `.map(c => c.centroid)`.
 */
module Lookup {
  import opened Strings

  /** A drainage-area or county record: its code, name and centroid (JSON text). */
  datatype GeomRecord = GeomRecord(code: int, name: string, centroid: string)

  /** A watershed record: its name and centroid (JSON text). */
  datatype WatershedRecord = WatershedRecord(name: string, centroid: string)

  /** How many of the flags are set. */
  function Count(hits: seq<bool>): (n: nat)
    ensures n <= |hits|
  {
    if |hits| == 0 then 0 else (if hits[0] then 1 else 0) + Count(hits[1..])
  }

  /** No set flag counts zero. */
  lemma {:induction false} NoHits(hits: seq<bool>)
    requires forall i :: 0 <= i < |hits| ==> !hits[i]
    ensures Count(hits) == 0
  {
    if |hits| > 0 {
      assert forall i :: 0 <= i < |hits| - 1 ==> hits[1..][i] == hits[i + 1];
      NoHits(hits[1..]);
    }
  }

  /** Counting a prefix of length `k >= 1` counts the first flag and then the rest's prefix. */
  lemma {:induction false} CountPrefix(hits: seq<bool>, k: nat)
    requires 1 <= k <= |hits|
    ensures Count(hits[..k]) == (if hits[0] then 1 else 0) + Count(hits[1..][..k - 1])
  {
    assert hits[..k][0] == hits[0];
    assert hits[..k][1..] == hits[1..][..k - 1];
  }

  /** Which records the code filter `f.code === code` keeps. */
  function CodeHits(records: seq<GeomRecord>, code: JsNumber): (r: seq<bool>)
    ensures |r| == |records|
    ensures forall i :: 0 <= i < |records| ==> (r[i] <==> Finite(records[i].code) == code)
  {
    seq(|records|, i requires 0 <= i < |records| => Finite(records[i].code) == code)
  }

  /** Which records the name filter `f.name === ws.toUpperCase()` keeps. */
  function NameHits(records: seq<WatershedRecord>, ws: string): (r: seq<bool>)
    ensures |r| == |records|
    ensures forall i :: 0 <= i < |records| ==> (r[i] <==> records[i].name == ToUpper(ws))
  {
    seq(|records|, i requires 0 <= i < |records| => records[i].name == ToUpper(ws))
  }

  /**
   * The elements of `xs` whose flag is set, in order: `filter` by a
   * precomputed test. The result is pinned down by its length, the number of
   * set flags, and by the position of each kept element: the number of set
   * flags before it.
   */
  function Kept<T>(xs: seq<T>, hits: seq<bool>): (r: seq<T>)
    requires |xs| == |hits|
    ensures |r| == Count(hits)
    ensures forall c :: c in r ==> exists i :: 0 <= i < |xs| && hits[i] && xs[i] == c
    ensures forall i :: 0 <= i < |xs| && hits[i] ==> Count(hits[..i]) < |r| && r[Count(hits[..i])] == xs[i]
  {
    if |xs| == 0 then []
    else
      var rest := Kept(xs[1..], hits[1..]);
      var head: seq<T> := if hits[0] then [xs[0]] else [];
      forall i | 0 <= i < |xs| && hits[i]
        ensures Count(hits[..i]) < |head + rest| && (head + rest)[Count(hits[..i])] == xs[i]
      {
        if i == 0 {
          assert hits[..0] == [];
        } else {
          CountPrefix(hits, i);
          assert hits[1..][i - 1] && xs[1..][i - 1] == xs[i];
        }
      }
      forall c | c in head + rest
        ensures exists i :: 0 <= i < |xs| && hits[i] && xs[i] == c
      {
        if c in head {
          assert hits[0] && xs[0] == c;
        } else {
          var j :| 0 <= j < |xs[1..]| && hits[1..][j] && xs[1..][j] == c;
          assert hits[j + 1] && xs[j + 1] == c;
        }
      }
      head + rest
  }

  /** The centroids of the records, in order: `.map(c => c.centroid)`. */
  function Centroids<R>(records: seq<R>, centroid: R -> string): (r: seq<string>)
    ensures |r| == |records|
    ensures forall i :: 0 <= i < |records| ==> r[i] == centroid(records[i])
  {
    seq(|records|, i requires 0 <= i < |records| => centroid(records[i]))
  }

  /**
   * The centroids of the records whose code is `code` (`f.code === code`), in
   * record order. NaN equals nothing, so an unparsable code finds none.
   */
  function CentroidsWithCode(records: seq<GeomRecord>, code: JsNumber): (r: seq<string>)
    ensures |r| <= |records|
    ensures code.NaN? ==> r == []
    ensures forall c :: c in r ==> exists i :: 0 <= i < |records| && Finite(records[i].code) == code && records[i].centroid == c
    ensures forall i :: 0 <= i < |records| && Finite(records[i].code) == code ==> records[i].centroid in r
    ensures |r| == Count(CodeHits(records, code))
    ensures forall i :: 0 <= i < |records| && Finite(records[i].code) == code ==>
      Count(CodeHits(records, code)[..i]) < |r| && r[Count(CodeHits(records, code)[..i])] == records[i].centroid
  {
    var hits := CodeHits(records, code);
    var r := Kept(Centroids(records, (g: GeomRecord) => g.centroid), hits);
    if code.NaN? then NoHits(hits); r else r
  }

  /** The centroids of the watershed records named `ws.toUpperCase()`, in record order. */
  function CentroidsNamed(records: seq<WatershedRecord>, ws: string): (r: seq<string>)
    ensures |r| <= |records|
    ensures forall c :: c in r ==> exists i :: 0 <= i < |records| && records[i].name == ToUpper(ws) && records[i].centroid == c
    ensures forall i :: 0 <= i < |records| && records[i].name == ToUpper(ws) ==> records[i].centroid in r
    ensures |r| == Count(NameHits(records, ws))
    ensures forall i :: 0 <= i < |records| && records[i].name == ToUpper(ws) ==>
      Count(NameHits(records, ws)[..i]) < |r| && r[Count(NameHits(records, ws)[..i])] == records[i].centroid
  {
    Kept(Centroids(records, (w: WatershedRecord) => w.centroid), NameHits(records, ws))
  }

  /**
   * Exactly one record with the code gives exactly its centroid. `JSON.parse`
   * reads the list as its entries joined by commas, so this one-element list
   * is the case whose text is a single centroid.
   */
  lemma {:induction false} OneCodeMatch(records: seq<GeomRecord>, code: JsNumber, k: nat)
    requires k < |records| && Finite(records[k].code) == code
    requires forall i :: 0 <= i < |records| && i != k ==> Finite(records[i].code) != code
    ensures CentroidsWithCode(records, code) == [records[k].centroid]
  {
    var r := CentroidsWithCode(records, code);
    var hits := CodeHits(records, code);
    OnlyHit(hits, k);
    assert |r| == 1;
    assert forall i :: 0 <= i < k ==> hits[..k][i] == hits[i];
    NoHits(hits[..k]);
  }

  /** The same for the watershed names. */
  lemma {:induction false} OneNameMatch(records: seq<WatershedRecord>, ws: string, k: nat)
    requires k < |records| && records[k].name == ToUpper(ws)
    requires forall i :: 0 <= i < |records| && i != k ==> records[i].name != ToUpper(ws)
    ensures CentroidsNamed(records, ws) == [records[k].centroid]
  {
    var r := CentroidsNamed(records, ws);
    var hits := NameHits(records, ws);
    OnlyHit(hits, k);
    assert |r| == 1;
    assert forall i :: 0 <= i < k ==> hits[..k][i] == hits[i];
    NoHits(hits[..k]);
  }

  /** A single set flag counts one. */
  lemma {:induction false} OnlyHit(hits: seq<bool>, k: nat)
    requires k < |hits| && hits[k]
    requires forall i :: 0 <= i < |hits| && i != k ==> !hits[i]
    ensures Count(hits) == 1
  {
    if k == 0 {
      assert forall i :: 0 <= i < |hits| - 1 ==> !hits[1..][i] by {
        forall i | 0 <= i < |hits| - 1
          ensures !hits[1..][i]
        {
          assert hits[1..][i] == hits[i + 1];
        }
      }
      NoHits(hits[1..]);
    } else {
      assert !hits[0];
      assert hits[1..][k - 1] == hits[k];
      forall i | 0 <= i < |hits| - 1 && i != k - 1
        ensures !hits[1..][i]
      {
        assert hits[1..][i] == hits[i + 1];
      }
      OnlyHit(hits[1..], k - 1);
    }
  }
}
