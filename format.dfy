/** Text conventions shared by both command-line scripts: Python's `str(int)`,
    joining identifiers with an arrow, and the header line of a neighbour query. */
module Format {

  /** The decimal digit `d` as a character. */
  function DigitChar(d: nat): char
    requires d < 10
  {
    "0123456789"[d]
  }

  /** Decimal text of a natural number, without leading zeros. */
  function NatToString(n: nat): string
    decreases n
  {
    if n < 10 then [DigitChar(n)] else NatToString(n / 10) + [DigitChar(n % 10)]
  }

  /** Python's `str(i)` for an integer: a minus sign, then the decimal digits. */
  function IntToString(i: int): string
  {
    if i < 0 then "-" + NatToString(-i) else NatToString(i)
  }

  /** The parts, in order, with `sep` between each two of them. */
  function Join(parts: seq<string>, sep: string): string
  {
    if |parts| == 0 then ""
    else if |parts| == 1 then parts[0]
    else parts[0] + sep + Join(parts[1..], sep)
  }

  /** The line printed before the result of a neighbour query, for example
      "upstream neighbors of a1 to depth 2:". The depth appears exactly as the
      user typed it on the command line. */
  function Header(title: string, node: string, depthText: string): string
  {
    title + node + " to depth " + depthText + ":"
  }

  /** Each line rendered by `render`, in order: what printing them one per
      line shows. */
  function RenderAll<L>(ls: seq<L>, render: L -> string): seq<string>
  {
    if ls == [] then [] else [render(ls[0])] + RenderAll(ls[1..], render)
  }

  lemma {:induction false} RenderAllAppend<L>(a: seq<L>, b: seq<L>, render: L -> string)
    ensures RenderAll(a + b, render) == RenderAll(a, render) + RenderAll(b, render)
  {
    if a != [] {
      assert (a + b)[1..] == a[1..] + b;
      RenderAllAppend(a[1..], b, render);
    } else {
      assert a + b == b;
    }
  }

  /** One printed line per line, in the same order. */
  lemma {:induction false} RenderAllAt<L>(ls: seq<L>, render: L -> string)
    ensures |RenderAll(ls, render)| == |ls|
    ensures forall i :: 0 <= i < |ls| ==> RenderAll(ls, render)[i] == render(ls[i])
  {
    if ls != [] {
      RenderAllAt(ls[1..], render);
      forall i | 1 <= i < |ls|
        ensures RenderAll(ls, render)[i] == render(ls[i])
      {
        assert RenderAll(ls, render)[i] == RenderAll(ls[1..], render)[i - 1];
        assert ls[1..][i - 1] == ls[i];
      }
    }
  }
}
