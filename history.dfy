/** The query history kept in the session (main.py, `st.session_state.historial`):
    each comparison is stored once, and the page lists only the latest ten. */
module History {
  import opened Wrappers

  /** The pair of country names of one comparison. */
  datatype Query = Query(country1: string, country2: string)

  /** How many entries the history section lists. */
  const ShownLimit: nat := 10

  predicate NoDuplicates(h: seq<Query>) {
    forall i, j :: 0 <= i < j < |h| ==> h[i] != h[j]
  }

  /** Appending a pair to the history unless it is already there, on values. */
  function Recorded(h: seq<Query>, q: Query): (r: seq<Query>)
    ensures q in r
    ensures |r| == if q in h then |h| else |h| + 1
    ensures r[..|h|] == h
    ensures NoDuplicates(h) ==> NoDuplicates(r)
  {
    if q in h then h else h + [q]
  }

  /** `h[-n:]` for a positive `n`: the last `n` entries, or all of them when there are fewer. */
  function Latest(h: seq<Query>, n: nat): (r: seq<Query>)
    requires n > 0
    ensures |r| == if |h| < n then |h| else n
    ensures forall k :: 0 <= k < |r| ==> r[k] == h[|h| - |r| + k]
  {
    if |h| <= n then h else h[|h| - n..]
  }

  /** Recording a query already present changes nothing. */
  lemma RecordedIdempotent(h: seq<Query>, q: Query)
    ensures Recorded(Recorded(h, q), q) == Recorded(h, q)
  {
  }

  /** After a new query the list shows it last, preceded by the latest
      `ShownLimit - 1` earlier entries; the stored list keeps every entry. */
  lemma {:induction false} LatestAfterNewQuery(h: seq<Query>, q: Query)
    requires q !in h
    ensures |Recorded(h, q)| == |h| + 1
    ensures Latest(Recorded(h, q), ShownLimit) == Latest(h, ShownLimit - 1) + [q]
  {
    var r := Recorded(h, q);
    var a := Latest(r, ShownLimit);
    var b := Latest(h, ShownLimit - 1) + [q];
    assert |a| == |b|;
    forall k | 0 <= k < |a|
      ensures a[k] == b[k]
    {
      if k < |a| - 1 {
        assert a[k] == r[|r| - |a| + k] == h[|h| - (|a| - 1) + k];
      }
    }
  }

  /** One entry of the history section: a dash, the first name, an arrow, the
      second name; both names can be read back from their places in the line. */
  function Line(q: Query): (line: string)
    ensures |line| == |q.country1| + |q.country2| + 5
    ensures line[..2] == "- " && line[2..2 + |q.country1|] == q.country1
    ensures line[2 + |q.country1|..5 + |q.country1|] == " \U{2194} " && line[5 + |q.country1|..] == q.country2
  {
    "- " + q.country1 + " \U{2194} " + q.country2
  }

  /** The per-session state: `historial` is `None` until the first run puts it there. */
  class Session {
    var historial: Option<seq<Query>>

    /** The history never holds the same pair twice. */
    ghost predicate Valid()
      reads this
    {
      historial.Some? ==> NoDuplicates(historial.value)
    }

    /** A fresh session, before the page first ran. */
    constructor ()
      ensures historial == None && Valid()
    {
      historial := None;
    }

    /** The stored entries, empty while the history is absent. */
    function Entries(): seq<Query>
      reads this
    {
      if historial.Some? then historial.value else []
    }

    /** Lines 273-278: create the history if absent, then append the pair unless present. */
    method Record(q: Query)
      requires Valid()
      modifies this
      ensures Valid()
      ensures historial == Some(Recorded(old(Entries()), q))
    {
      if historial.None? {
        historial := Some([]);
      }
      if q !in historial.value {
        historial := Some(historial.value + [q]);
      }
    }

    /** Lines 280-282: the lines listed under the history heading, oldest first. */
    method ShowHistory() returns (lines: seq<string>)
      ensures |lines| == if |Entries()| < ShownLimit then |Entries()| else ShownLimit
      ensures forall k :: 0 <= k < |lines| ==> lines[k] == Line(Latest(Entries(), ShownLimit)[k])
    {
      var shown := Latest(Entries(), ShownLimit);
      lines := [];
      var i := 0;
      while i < |shown|
        invariant 0 <= i <= |shown|
        invariant |lines| == i
        invariant forall k :: 0 <= k < i ==> lines[k] == Line(shown[k])
      {
        lines := lines + [Line(shown[i])];
        i := i + 1;
      }
    }
  }
}
