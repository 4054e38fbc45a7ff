/**
 * The custom-array text box: the input is trimmed, split on commas, each
 * piece trimmed and read with `parseInt`; pieces that do not read as a
 * positive integer are dropped and the rest are clamped to 300.
 */
module CustomInput {
  import opened JsText

  /** The largest value a custom element may have. */
  const MaxValue := 300

  /** One comma-separated piece, read the way the source reads it. */
  function ReadPiece(p: string): Option<int>
  {
    ParseInt(Trim(p), 10)
  }

  /** Each piece read on its own. */
  function Readings(parts: seq<string>): (rs: seq<Option<int>>)
    ensures |rs| == |parts|
    ensures forall k :: 0 <= k < |parts| ==> rs[k] == ReadPiece(parts[k])
  {
    seq(|parts|, k requires 0 <= k < |parts| => ReadPiece(parts[k]))
  }

  /** The readings that are integers greater than zero, in order: the
      `filter(n => !isNaN(n) && n > 0)` of the source. */
  function Positives(rs: seq<Option<int>>): (vs: seq<int>)
    ensures |vs| <= |rs|
    ensures forall k :: 0 <= k < |vs| ==> vs[k] > 0
  {
    if rs == [] then []
    else if rs[0].Some? && rs[0].value > 0 then [rs[0].value] + Positives(rs[1..])
    else Positives(rs[1..])
  }

  /** The values of the pieces that read as integers greater than zero. */
  function Kept(parts: seq<string>): (vs: seq<int>)
    ensures |vs| <= |parts|
    ensures forall k :: 0 <= k < |vs| ==> vs[k] > 0
  {
    Positives(Readings(parts))
  }

  /** `Positives` reads the readings one at a time: what a list of readings
      keeps is what its front keeps followed by what its back keeps. */
  lemma {:induction false} PositivesAppend(a: seq<Option<int>>, b: seq<Option<int>>)
    ensures Positives(a + b) == Positives(a) + Positives(b)
  {
    if a == [] {
      assert a + b == b;
    } else {
      assert (a + b)[0] == a[0];
      assert (a + b)[1..] == a[1..] + b;
      PositivesAppend(a[1..], b);
      var head := if a[0].Some? && a[0].value > 0 then [a[0].value] else [];
      assert Positives(a + b) == head + Positives(a[1..] + b);
      assert Positives(a) == head + Positives(a[1..]);
    }
  }

  /** One reading is kept, as its value, exactly when it is an integer
      greater than zero. */
  lemma PositivesOne(r: Option<int>)
    ensures Positives([r]) == if r.Some? && r.value > 0 then [r.value] else []
  {
    assert [r][1..] == [];
  }

  /** The pieces are read independently: the values kept from two runs of
      pieces are those kept from the first followed by those kept from the
      second, and a single piece is kept exactly when it reads as a positive
      integer. Invalid pieces among valid ones therefore drop out without
      disturbing the order of the rest. */
  lemma KeptAppend(a: seq<string>, b: seq<string>)
    ensures Kept(a + b) == Kept(a) + Kept(b)
  {
    ReadingsAppend(a, b);
    PositivesAppend(Readings(a), Readings(b));
  }

  /** Reading two runs of pieces reads each run on its own. */
  lemma ReadingsAppend(a: seq<string>, b: seq<string>)
    ensures Readings(a + b) == Readings(a) + Readings(b)
  {
    assert forall k :: 0 <= k < |a| ==> (a + b)[k] == a[k];
    assert forall k :: |a| <= k < |a| + |b| ==> (a + b)[k] == b[k - |a|];
  }

  /** A single piece is kept exactly when it reads as a positive integer. */
  lemma KeptOne(p: string)
    ensures var r := ReadPiece(p);
            Kept([p]) == if r.Some? && r.value > 0 then [r.value] else []
  {
    assert Readings([p]) == [ReadPiece(p)];
    PositivesOne(ReadPiece(p));
  }

  /** `Math.min(value, 300)` applied to every value. */
  function Clamped(vs: seq<int>): (r: seq<int>)
    ensures |r| == |vs|
    ensures forall k :: 0 <= k < |vs| ==> r[k] <= vs[k] && r[k] <= MaxValue && (r[k] == vs[k] || r[k] == MaxValue)
  {
    seq(|vs|, k requires 0 <= k < |vs| => if vs[k] < MaxValue then vs[k] else MaxValue)
  }

  /** The values `setCustomArray` would install, or `None` when it leaves
      everything as it is: blank input, or no piece that reads as a positive
      integer. */
  function ParseCustom(input: string): Option<seq<int>>
  {
    var t := Trim(input);
    if t == [] then None
    else
      var vs := Kept(Split(t, ','));
      if vs == [] then None else Some(Clamped(vs))
  }

  /** What is installed is never empty and lies in [1, 300]. */
  lemma CustomBounds(input: string)
    ensures ParseCustom(input).Some? ==>
              var vs := ParseCustom(input).value;
              |vs| >= 1 && forall k :: 0 <= k < |vs| ==> 1 <= vs[k] <= MaxValue
  {
  }

  /** The decimal notation of each value, one piece per value. */
  function Pieces(vs: seq<nat>): (ps: seq<string>)
    ensures |ps| == |vs|
    ensures forall k :: 0 <= k < |vs| ==> ps[k] == DecimalString(vs[k])
  {
    seq(|vs|, k requires 0 <= k < |vs| => DecimalString(vs[k]))
  }

  /** Pieces written in decimal read back as their values. */
  lemma KeptPieces(vs: seq<nat>)
    requires forall k :: 0 <= k < |vs| ==> vs[k] > 0
    ensures Kept(Pieces(vs)) == vs
  {
    var rs := Readings(Pieces(vs));
    forall k | 0 <= k < |vs|
      ensures rs[k] == Some(vs[k] as int)
    {
      ReadDecimal(vs[k]);
    }
    PositivesSome(rs, vs);
  }

  /** Readings that are all the positive values `vs` keep all of them. */
  lemma {:induction false} PositivesSome(rs: seq<Option<int>>, vs: seq<int>)
    requires |rs| == |vs|
    requires forall k :: 0 <= k < |vs| ==> vs[k] > 0 && rs[k] == Some(vs[k])
    ensures Positives(rs) == vs
  {
    if rs != [] {
      PositivesSome(rs[1..], vs[1..]);
      assert vs == [vs[0]] + vs[1..];
    }
  }

  /** One piece of decimal notation reads as its value. */
  lemma ReadDecimal(n: nat)
    ensures ReadPiece(DecimalString(n)) == Some(n)
  {
    TrimDecimal(n);
    ParseDecimal(n);
  }

  /** Decimal notation carries no white space to trim. */
  lemma TrimDecimal(n: nat)
    ensures Trim(DecimalString(n)) == DecimalString(n)
  {
    TrimDigits(DecimalString(n));
  }

  /** A text that starts and ends with a digit is its own trim. */
  lemma TrimDigits(t: string)
    requires |t| >= 1 && IsDigit(t[0], 10) && IsDigit(t[|t| - 1], 10)
    ensures Trim(t) == t
  {
    assert TrimStart(t) == t;
  }

  /** Writing values of [1, 300] in decimal, separated by commas, and reading
      the text back installs exactly those values. */
  lemma CustomRoundTrip(vs: seq<nat>)
    requires |vs| >= 1 && forall k :: 0 <= k < |vs| ==> 1 <= vs[k] <= MaxValue
    ensures ParseCustom(Join(Pieces(vs), ',')) == Some(vs)
  {
    var text := Join(Pieces(vs), ',');
    JoinedTrim(vs);
    JoinedSplit(vs);
    KeptPieces(vs);
    assert Kept(Split(Trim(text), ',')) == vs;
    assert Clamped(vs) == vs;
  }

  /** The comma-joined decimal text is not blank and needs no trimming. */
  lemma JoinedTrim(vs: seq<nat>)
    requires |vs| >= 1
    ensures var text := Join(Pieces(vs), ','); text != [] && Trim(text) == text
  {
    var ps := Pieces(vs);
    PiecesDigitEnds(vs);
    JoinEnds(ps);
    TrimDigits(Join(ps, ','));
  }

  /** The comma-joined decimal text splits back into its pieces. */
  lemma JoinedSplit(vs: seq<nat>)
    requires |vs| >= 1
    ensures Split(Join(Pieces(vs), ','), ',') == Pieces(vs)
  {
    PiecesCommaFree(vs);
    SplitJoin(Pieces(vs), ',');
  }

  /** Every piece of decimal notation starts and ends with a digit. */
  lemma PiecesDigitEnds(vs: seq<nat>)
    requires |vs| >= 1
    ensures var ps := Pieces(vs);
      |ps| >= 1 && forall k :: 0 <= k < |ps| ==> |ps[k]| >= 1 && IsDigit(ps[k][0], 10) && IsDigit(ps[k][|ps[k]| - 1], 10)
  {
    var ps := Pieces(vs);
    forall k | 0 <= k < |ps|
      ensures |ps[k]| >= 1 && IsDigit(ps[k][0], 10) && IsDigit(ps[k][|ps[k]| - 1], 10)
    {
      var d := DecimalString(vs[k]);
      assert ps[k] == d;
      assert IsDigit(d[0], 10) && IsDigit(d[|d| - 1], 10);
    }
  }

  /** Decimal notation holds no comma. */
  lemma PiecesCommaFree(vs: seq<nat>)
    ensures forall p :: p in Pieces(vs) ==> ',' !in p
  {
    var ps := Pieces(vs);
    forall p | p in ps
      ensures ',' !in p
    {
      var k :| 0 <= k < |ps| && ps[k] == p;
      assert forall c :: c in p ==> IsDigit(c, 10);
    }
  }

  /** A comma-joined text of decimal pieces starts and ends with a digit. */
  lemma {:induction false} JoinEnds(ps: seq<string>)
    requires |ps| >= 1 && forall k :: 0 <= k < |ps| ==> |ps[k]| >= 1 && IsDigit(ps[k][0], 10) && IsDigit(ps[k][|ps[k]| - 1], 10)
    ensures var t := Join(ps, ','); |t| >= 1 && IsDigit(t[0], 10) && IsDigit(t[|t| - 1], 10)
  {
    if |ps| > 1 {
      JoinEnds(ps[1..]);
    }
  }
}
