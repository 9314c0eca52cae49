/**
 * The dashboard's live charts: each relayed reading becomes a point whose
 * label is the time of day of its timestamp; a point whose label repeats
 * the chart's last label is dropped, and the chart keeps only the newest
 * `MaxDataPoints` points.
 */
module Dashboard {

  import opened Wrappers
  import Text
  import Feed

  const MaxDataPoints: nat := 20

  /** A chart label: a string, or JavaScript's `undefined`. */
  datatype Label = Undefined | Str(text: string)

  /** A chart's label array and the data array of its single data set. */
  datatype Chart = Chart(labels: seq<Label>, values: seq<real>)

  /** `timestamp.split(' ')[1]`. */
  function LabelOf(timestamp: string): (l: Label)
    ensures l.Str? <==> |Text.Split(timestamp, ' ')| >= 2
    ensures l.Str? ==> l.text == Text.Split(timestamp, ' ')[1] && ' ' !in l.text
  {
    match Text.Piece(timestamp, ' ', 1)
    case None => Undefined
    case Some(text) => Str(text)
  }

  /** `labels.at(-1)`: the last label, or `undefined` for an empty chart. */
  function LastLabel(labels: seq<Label>): (l: Label)
    ensures |labels| > 0 ==> l == labels[|labels| - 1]
    ensures |labels| == 0 ==> l == Undefined
  {
    if |labels| == 0 then Undefined else labels[|labels| - 1]
  }

  /** The array left by `shift()`, which does nothing to an empty array. */
  function Shift<T>(s: seq<T>): (r: seq<T>)
    ensures |s| > 0 ==> r == s[1..]
    ensures |s| == 0 ==> r == []
  {
    if |s| == 0 then [] else s[1..]
  }

  /** `updateChartData`: a point whose label equals the last label is
      dropped; otherwise the label is pushed, the oldest label and value are
      shifted out once there are more than `MaxDataPoints` labels, and the
      value is pushed. */
  function Update(chart: Chart, reading: Feed.WireReading): (c: Chart)
    ensures LabelOf(reading.timestamp) == LastLabel(chart.labels) ==> c == chart
    ensures LabelOf(reading.timestamp) != LastLabel(chart.labels) ==>
      LastLabel(c.labels) == LabelOf(reading.timestamp) && |c.values| > 0 && c.values[|c.values| - 1] == reading.value
    ensures |chart.labels| == |chart.values| ==> |c.labels| == |c.values|
    ensures |chart.labels| <= MaxDataPoints ==> |c.labels| <= MaxDataPoints
  {
    var newLabel := LabelOf(reading.timestamp);
    if LastLabel(chart.labels) == newLabel then chart
    else
      var labels := chart.labels + [newLabel];
      var full := |labels| > MaxDataPoints;
      var labels' := if full then labels[1..] else labels;
      var values := if full then Shift(chart.values) else chart.values;
      Chart(labels', values + [reading.value])
  }

  // ---------------------------------------------------------------------------
  // What a chart shows after a run of readings
  // ---------------------------------------------------------------------------

  /** The readings a chart fed from empty keeps, oldest first, before the
      window is applied: each reading whose label differs from the label of
      the last point kept. */
  function Accepted(rs: seq<Feed.WireReading>): (ps: seq<(Label, real)>)
    ensures |ps| <= |rs|
    decreases |rs|
  {
    if |rs| == 0 then []
    else
      var ps := Accepted(rs[..|rs| - 1]);
      var r := rs[|rs| - 1];
      if LabelOf(r.timestamp) == LastPoint(ps) then ps else ps + [(LabelOf(r.timestamp), r.value)]
  }

  function LastPoint(ps: seq<(Label, real)>): Label {
    if |ps| == 0 then Undefined else ps[|ps| - 1].0
  }

  /** The newest `n` points. */
  function Newest<T>(ps: seq<T>, n: nat): (r: seq<T>)
    ensures |r| == if |ps| <= n then |ps| else n
  {
    if |ps| <= n then ps else ps[|ps| - n..]
  }

  function LabelsOf(ps: seq<(Label, real)>): (r: seq<Label>)
    ensures |r| == |ps| && forall i :: 0 <= i < |ps| ==> r[i] == ps[i].0
  {
    seq(|ps|, i requires 0 <= i < |ps| => ps[i].0)
  }

  function ValuesOf(ps: seq<(Label, real)>): (r: seq<real>)
    ensures |r| == |ps| && forall i :: 0 <= i < |ps| ==> r[i] == ps[i].1
  {
    seq(|ps|, i requires 0 <= i < |ps| => ps[i].1)
  }

  /** The chart shown for the newest points of `ps`. */
  function Window(ps: seq<(Label, real)>): Chart {
    Chart(LabelsOf(Newest(ps, MaxDataPoints)), ValuesOf(Newest(ps, MaxDataPoints)))
  }

  /** The chart after feeding it the readings one by one. */
  function Replay(chart: Chart, rs: seq<Feed.WireReading>): Chart
    decreases |rs|
  {
    if |rs| == 0 then chart else Update(Replay(chart, rs[..|rs| - 1]), rs[|rs| - 1])
  }

  /** Keeping the newest `n` of a longer run: appending a point and keeping
      the newest `n` again drops at most the oldest of them. */
  lemma NewestAppend<T>(ps: seq<T>, p: T, n: nat)
    requires n >= 1
    ensures var w := Newest(ps, n);
      Newest(ps + [p], n) == if |w| + 1 > n then w[1..] + [p] else w + [p]
  {
    var w := Newest(ps, n);
    var qs := ps + [p];
    if |ps| > n {
      assert qs[|qs| - n..] == ps[|ps| - n + 1..] + [p];
      assert w[1..] == ps[|ps| - n + 1..];
    } else if |ps| == n {
      assert qs[|qs| - n..] == ps[1..] + [p];
    }
  }

  /** The window's last label is the label of the last point kept. */
  lemma WindowLast(ps: seq<(Label, real)>)
    ensures LastLabel(Window(ps).labels) == LastPoint(ps)
    ensures |Window(ps).labels| == |Window(ps).values| <= MaxDataPoints
  {
    var w := Newest(ps, MaxDataPoints);
    if |ps| > 0 {
      assert w[|w| - 1] == ps[|ps| - 1];
    }
  }

  /** One accepted point moves the window the way `Update` moves the chart. */
  lemma WindowStep(ps: seq<(Label, real)>, r: Feed.WireReading)
    requires LabelOf(r.timestamp) != LastPoint(ps)
    ensures Update(Window(ps), r) == Window(ps + [(LabelOf(r.timestamp), r.value)])
  {
    var p := (LabelOf(r.timestamp), r.value);
    var w := Newest(ps, MaxDataPoints);
    WindowLast(ps);
    NewestAppend(ps, p, MaxDataPoints);
    var w' := Newest(ps + [p], MaxDataPoints);
    var c := Update(Window(ps), r);
    if |w| + 1 > MaxDataPoints {
      assert w' == w[1..] + [p];
      assert LabelsOf(w)[1..] + [p.0] == LabelsOf(w');
      assert ValuesOf(w)[1..] + [p.1] == ValuesOf(w');
    } else {
      assert w' == w + [p];
      assert LabelsOf(w) + [p.0] == LabelsOf(w');
      assert ValuesOf(w) + [p.1] == ValuesOf(w');
    }
  }

  /** A chart fed from empty shows exactly the newest `MaxDataPoints` of the
      readings it accepted, oldest first, labels and values side by side. */
  lemma {:induction false} ReplayShowsWindow(rs: seq<Feed.WireReading>)
    ensures Replay(Chart([], []), rs) == Window(Accepted(rs))
    decreases |rs|
  {
    if |rs| == 0 {
      assert Window([]) == Chart([], []);
    } else {
      var prefix := rs[..|rs| - 1];
      var r := rs[|rs| - 1];
      ReplayShowsWindow(prefix);
      var ps := Accepted(prefix);
      WindowLast(ps);
      if LabelOf(r.timestamp) != LastPoint(ps) {
        WindowStep(ps, r);
      }
    }
  }

  // ---------------------------------------------------------------------------
  // ws.onmessage
  // ---------------------------------------------------------------------------

  /** The smallest element of a non-empty set. */
  function MinOf(s: set<int>): (m: int)
    requires s != {}
    ensures m in s && forall x :: x in s ==> m <= x
  {
    HasMin(s);
    var m :| m in s && forall x :: x in s ==> m <= x;
    m
  }

  lemma {:induction false} HasMin(s: set<int>)
    requires s != {}
    ensures exists m :: m in s && forall x :: x in s ==> m <= x
    decreases |s|
  {
    if forall x :: x !in s {
      assert false;
    }
    var y :| y in s;
    if s == {y} {
      assert forall x :: x in s ==> y <= x;
    } else {
      HasMin(s - {y});
      var m :| m in s - {y} && forall x :: x in s - {y} ==> m <= x;
      var least := if y < m then y else m;
      forall x | x in s
        ensures least <= x
      {
        if x != y {
          assert x in s - {y};
        }
      }
      assert least in s;
    }
  }

  /** The keys of a relayed message in the order `for ... in` visits
      integer keys: ascending. */
  function SortedKeys(s: set<int>): (keys: seq<int>)
    ensures forall k :: k in keys <==> k in s
    ensures forall i, j :: 0 <= i < j < |keys| ==> keys[i] < keys[j]
    decreases |s|
  {
    if s == {} then []
    else
      var m := MinOf(s);
      var rest := SortedKeys(s - {m});
      assert forall i :: 0 <= i < |rest| ==> m < rest[i];
      [m] + rest
  }

  /** The charts after a message: all updated, or the updates made before
      an entry whose chart does not exist raised a TypeError. */
  datatype Applied = Applied(charts: map<int, Chart>) | Failed(charts: map<int, Chart>)

  /** The loop of `onmessage` over the keys `keys`, in that order. */
  function ApplyEach(charts: map<int, Chart>, data: map<int, Option<Feed.WireReading>>, keys: seq<int>): (r: Applied)
    requires forall i :: 0 <= i < |keys| ==> keys[i] in data
    requires forall i, j :: 0 <= i < j < |keys| ==> keys[i] != keys[j]
    ensures r.Applied? <==> forall i :: 0 <= i < |keys| && data[keys[i]].Some? ==> keys[i] in charts
    ensures r.charts.Keys == charts.Keys
    ensures forall k :: k in charts && (k !in keys || data[k].None?) ==> r.charts[k] == charts[k]
    ensures r.Applied? ==> forall k :: k in charts && k in keys && data[k].Some? ==>
      r.charts[k] == Update(charts[k], data[k].value)
    decreases |keys|
  {
    if |keys| == 0 then Applied(charts)
    else
      var k := keys[0];
      assert forall i :: 1 <= i < |keys| ==> keys[i] == keys[1..][i - 1];
      if data[k].None? then ApplyEach(charts, data, keys[1..])
      else if k !in charts then Failed(charts)
      else ApplyEach(charts[k := Update(charts[k], data[k].value)], data, keys[1..])
  }

  /** `ws.onmessage`: every non-null entry updates its sensor's chart; null
      entries and charts without an entry stay as they are. */
  function OnMessage(charts: map<int, Chart>, data: map<int, Option<Feed.WireReading>>): (r: Applied)
    ensures r.Applied? <==> forall k :: k in data && data[k].Some? ==> k in charts
    ensures r.charts.Keys == charts.Keys
    ensures forall k :: k in charts && (k !in data || data[k].None?) ==> r.charts[k] == charts[k]
    ensures r.Applied? ==> forall k :: k in charts && k in data && data[k].Some? ==>
      r.charts[k] == Update(charts[k], data[k].value)
  {
    var keys := SortedKeys(data.Keys);
    var r := ApplyEach(charts, data, keys);
    assert forall k :: k in data <==> k in keys;
    r
  }
}
