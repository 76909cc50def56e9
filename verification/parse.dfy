/** Reading a network from edge records u,v,capacity,demand: numeric node
    ids stay as they are, the label S becomes node 0 and the label T node
    n+1, where n is the largest numeric id. Records arrive already split
    into fields and converted to integers. */
module Parse {
  import opened Network

  /** An endpoint as a record names it: a numeric node id or a label. */
  datatype Endpoint = Id(id: int) | S | T

  /** One record: tail, head, capacity and lower bound. */
  datatype Line = Line(from: Endpoint, to: Endpoint, capacity: int, demand: int)

  /** What the reader returns: the edges, keyed by their relabelled endpoint
      pair, and the pair of every record in input order. */
  datatype Parsed = Parsed(edges: map<(Endpoint, Endpoint), Edge>, order: seq<(Endpoint, Endpoint)>)

  predicate IsLabel(e: Endpoint)
  {
    e.S? || e.T?
  }

  /** How many of a pair's two endpoints are labels. */
  function Labels(a: Endpoint, b: Endpoint): nat
  {
    (if IsLabel(a) then 1 else 0) + (if IsLabel(b) then 1 else 0)
  }

  function IdValue(e: Endpoint): int
  {
    if e.Id? then e.id else 0
  }

  function Max(a: int, b: int): int
  {
    if a < b then b else a
  }

  /** The running maximum over the numeric ids, starting from 0. */
  function MaxId(lines: seq<Line>): int
  {
    if |lines| == 0 then 0
    else
      var last := lines[|lines| - 1];
      Max(MaxId(lines[..|lines| - 1]), Max(IdValue(last.from), IdValue(last.to)))
  }

  /** No numeric id in the records exceeds n. */
  ghost predicate BoundsIds(lines: seq<Line>, n: int)
  {
    forall i | 0 <= i < |lines| ::
      && (lines[i].from.Id? ==> lines[i].from.id <= n)
      && (lines[i].to.Id? ==> lines[i].to.id <= n)
  }

  /** n is 0 or some record names node n. */
  ghost predicate Attained(lines: seq<Line>, n: int)
  {
    n == 0 || exists i | 0 <= i < |lines| :: lines[i].from == Id(n) || lines[i].to == Id(n)
  }

  /** MaxId is the least non-negative bound of the numeric ids: it bounds
      them all and is 0 or one of them. */
  lemma {:induction false} MaxIdIsLargest(lines: seq<Line>)
    ensures 0 <= MaxId(lines)
    ensures BoundsIds(lines, MaxId(lines))
    ensures Attained(lines, MaxId(lines))
  {
    if |lines| > 0 {
      var init := lines[..|lines| - 1];
      var last := lines[|lines| - 1];
      MaxIdIsLargest(init);
      assert forall i | 0 <= i < |init| :: init[i] == lines[i];
      if MaxId(lines) != MaxId(init) && MaxId(lines) != 0 {
        assert last.from == Id(MaxId(lines)) || last.to == Id(MaxId(lines));
      } else if MaxId(lines) != 0 {
        var i :| 0 <= i < |init| && (init[i].from == Id(MaxId(init)) || init[i].to == Id(MaxId(init)));
        assert lines[i] == init[i];
      }
    }
  }

  /** Any two such bounds are the same number. */
  lemma LargestIdUnique(lines: seq<Line>, n: int)
    requires 0 <= n && BoundsIds(lines, n) && Attained(lines, n)
    ensures n == MaxId(lines)
  {
    MaxIdIsLargest(lines);
    var m := MaxId(lines);
    if n != 0 {
      var i :| 0 <= i < |lines| && (lines[i].from == Id(n) || lines[i].to == Id(n));
      assert n <= m;
    }
    if m != 0 {
      var j :| 0 <= j < |lines| && (lines[j].from == Id(m) || lines[j].to == Id(m));
      assert m <= n;
    }
  }

  /** One record's endpoints after relabelling: the first case that applies
      of "tail is S", "head is S", "tail is T", "head is T" is rewritten, to
      0 for S and n+1 for T, and nothing else changes. */
  function Relabel(line: Line, n: int): (r: (Endpoint, Endpoint))
    ensures r.0 == line.from || r.1 == line.to
    ensures line.from.Id? ==> r.0 == line.from
    ensures line.to.Id? ==> r.1 == line.to
    ensures r.0 != line.from ==> r.0 == (if line.from.S? then Id(0) else Id(n + 1))
    ensures r.1 != line.to ==> r.1 == (if line.to.S? then Id(0) else Id(n + 1))
  {
    if line.from.S? then (Id(0), line.to)
    else if line.to.S? then (line.from, Id(0))
    else if line.from.T? then (Id(n + 1), line.to)
    else if line.to.T? then (line.from, Id(n + 1))
    else (line.from, line.to)
  }

  /** Where the tail ends up, decided from the tail and the head alone. */
  function TailOf(a: Endpoint, b: Endpoint, n: int): Endpoint
  {
    match a
    case S => Id(0)
    case T => if b.S? then T else Id(n + 1)
    case Id(_) => a
  }

  /** Where the head ends up: S becomes 0 unless the tail was S; T becomes
      n+1 only when the tail was a numeric id. */
  function HeadOf(a: Endpoint, b: Endpoint, n: int): Endpoint
  {
    match b
    case S => if a.S? then S else Id(0)
    case T => if a.Id? then Id(n + 1) else T
    case Id(_) => b
  }

  /** The chain of cases agrees with the endpoint-by-endpoint description. */
  lemma RelabelPositionwise(line: Line, n: int)
    ensures Relabel(line, n) == (TailOf(line.from, line.to, n), HeadOf(line.from, line.to, n))
  {
  }

  /** Relabelling resolves exactly one label when the record has any: a
      record naming S or T once gets two numeric endpoints, and one naming
      labels at both ends keeps one of them. */
  lemma RelabelResolvesOne(line: Line, n: int)
    ensures Labels(Relabel(line, n).0, Relabel(line, n).1) ==
            if Labels(line.from, line.to) == 0 then 0 else Labels(line.from, line.to) - 1
  {
  }

  /** The second endpoint keeps its label when both ends are labels, except
      when the head is S and the tail is T. */
  lemma RelabelBothLabels(line: Line, n: int)
    requires IsLabel(line.from) && IsLabel(line.to)
    ensures !(line.from.T? && line.to.S?) ==> Relabel(line, n).1 == line.to && Relabel(line, n).0.Id?
    ensures line.from.T? && line.to.S? ==> Relabel(line, n) == (T, Id(0))
  {
  }

  /** The relabelled pair of every record, in input order. */
  function Pairs(lines: seq<Line>, n: int): (ps: seq<(Endpoint, Endpoint)>)
    ensures |ps| == |lines|
    ensures forall i | 0 <= i < |lines| :: ps[i] == Relabel(lines[i], n)
  {
    seq(|lines|, i requires 0 <= i < |lines| => Relabel(lines[i], n))
  }

  /** Adding the records' edges one after the other; adding an edge that is
      already there replaces its capacity and lower bound. */
  function AddEdges(lines: seq<Line>, n: int): map<(Endpoint, Endpoint), Edge>
  {
    if |lines| == 0 then map[]
    else
      var last := lines[|lines| - 1];
      AddEdges(lines[..|lines| - 1], n)[Relabel(last, n) := Edge(last.capacity, last.demand)]
  }

  /** Some later record has the same relabelled pair as record i. */
  ghost predicate Overridden(lines: seq<Line>, n: int, i: int)
    requires 0 <= i < |lines|
  {
    exists j | i < j < |lines| :: Relabel(lines[j], n) == Relabel(lines[i], n)
  }

  /** The edges are exactly the records' pairs. */
  lemma {:induction false} AddEdgesKeys(lines: seq<Line>, n: int)
    ensures forall p :: p in AddEdges(lines, n) <==> exists i | 0 <= i < |lines| :: Relabel(lines[i], n) == p
  {
    if |lines| > 0 {
      var init := lines[..|lines| - 1];
      AddEdgesKeys(init, n);
      forall p
        ensures p in AddEdges(lines, n) <==> exists i | 0 <= i < |lines| :: Relabel(lines[i], n) == p
      {
        if p in AddEdges(init, n) {
          var i :| 0 <= i < |init| && Relabel(init[i], n) == p;
          assert lines[i] == init[i];
        }
        if exists i | 0 <= i < |lines| :: Relabel(lines[i], n) == p {
          var i :| 0 <= i < |lines| && Relabel(lines[i], n) == p;
          if i < |init| {
            assert lines[i] == init[i];
          }
        }
      }
    }
  }

  /** Each edge carries the capacity and lower bound of the last record
      naming its pair. */
  lemma {:induction false} AddEdgesLastWins(lines: seq<Line>, n: int)
    ensures forall i | 0 <= i < |lines| && !Overridden(lines, n, i) ::
              && Relabel(lines[i], n) in AddEdges(lines, n)
              && AddEdges(lines, n)[Relabel(lines[i], n)] == Edge(lines[i].capacity, lines[i].demand)
  {
    if |lines| > 0 {
      var init := lines[..|lines| - 1];
      var k := |lines| - 1;
      AddEdgesLastWins(init, n);
      forall i | 0 <= i < |lines| && !Overridden(lines, n, i)
        ensures Relabel(lines[i], n) in AddEdges(lines, n)
        ensures AddEdges(lines, n)[Relabel(lines[i], n)] == Edge(lines[i].capacity, lines[i].demand)
      {
        if i < k {
          assert lines[i] == init[i];
          assert Relabel(lines[k], n) != Relabel(lines[i], n);
        }
      }
    }
  }

  /** The reader: the largest numeric id, then every record relabelled and
      added as an edge. */
  function ParseGraph(lines: seq<Line>): (p: Parsed)
    ensures |p.order| == |lines|
    ensures forall i | 0 <= i < |lines| :: p.order[i] == Relabel(lines[i], MaxId(lines))
  {
    var n := MaxId(lines);
    Parsed(AddEdges(lines, n), Pairs(lines, n))
  }

  /** The reader's graph has one edge per distinct pair in its order list,
      holding the values of the last record with that pair. */
  lemma ParseGraphEdges(lines: seq<Line>)
    ensures ParseGraph(lines).edges.Keys == set i | 0 <= i < |lines| :: ParseGraph(lines).order[i]
    ensures forall i | 0 <= i < |lines| && !Overridden(lines, MaxId(lines), i) ::
              ParseGraph(lines).edges[ParseGraph(lines).order[i]] == Edge(lines[i].capacity, lines[i].demand)
  {
    AddEdgesKeys(lines, MaxId(lines));
    AddEdgesLastWins(lines, MaxId(lines));
  }
}
