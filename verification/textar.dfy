/**
 * internal/textar: the text archive of effects. Keys are written in Go's
 * quoted form without the surrounding quotes, so they may hold any byte;
 * the separator char is always '-'.
 */
module Textar {
  import opened Text
  import opened KeyValue
  import opened Archive

  /**
   * fmt's %q quoting with its quotes cut off, and the matching scan. Only
   * what the format relies on is assumed about them, in Sound.
   */
  datatype Quoting = Quoting(quote: string -> string, unquote: string -> string)

  /** Unquoting undoes quoting, and a quoted key never holds a newline. */
  ghost predicate Sound(q: Quoting) {
    forall s :: q.unquote(q.quote(s)) == s && '\n' !in q.quote(s)
  }

  /** The separator char of this archive. */
  const Dash: char := '-'

  function QuoteKeys(q: Quoting, es: seq<KV>): (r: seq<KV>)
    ensures |r| == |es|
    ensures forall i :: 0 <= i < |es| ==> r[i] == KV(q.quote(es[i].k), es[i].v)
  {
    seq(|es|, i requires 0 <= i < |es| => KV(q.quote(es[i].k), es[i].v))
  }

  function UnquoteKeys(q: Quoting, es: seq<KV>): (r: seq<KV>)
    ensures |r| == |es|
    ensures forall i :: 0 <= i < |es| ==> r[i] == KV(q.unquote(es[i].k), es[i].v)
  {
    seq(|es|, i requires 0 <= i < |es| => KV(q.unquote(es[i].k), es[i].v))
  }

  /** Format: the archive of es, keys quoted, under a run of dashes. */
  function Format(q: Quoting, es: seq<KV>): (ar: string)
    ensures ar == "" <==> |es| == 0
  {
    Write(QuoteKeys(q, es), Separator(es, Dash))
  }

  /** Parse: the entries of ar with their keys unquoted; a text without a space has none. */
  function Parse(q: Quoting, ar: string): (r: seq<KV>)
    ensures ' ' !in ar ==> r == []
  {
    var r := Read([], ar);
    assert ' ' !in ar ==> Cut(ar, " ").None? by {
      if Cut(ar, " ").Some? {
        var p := Cut(ar, " ").value;
        assert ar[|p.0|] == ' ';
      }
    }
    UnquoteKeys(q, r)
  }

  /** Every effect comes back from its archive, whatever bytes its key holds. */
  lemma RoundTrip(q: Quoting, es: seq<KV>)
    requires Sound(q)
    ensures Parse(q, Format(q, es)) == es
  {
    var qs := QuoteKeys(q, es);
    SeparatorClear(es, Dash);
    assert FlatKeys(qs);
    assert Clear(qs, Dash, SepLength(es, Dash)) by {
      assert forall i :: 0 <= i < |es| ==> qs[i].v == es[i].v;
    }
    ReadWrite([], qs, Dash, SepLength(es, Dash));
    assert Read([], Format(q, es)) == qs;
    assert UnquoteKeys(q, qs) == es;
  }
}
