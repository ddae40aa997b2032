/**
 * The bracketed text form the stream operator writes for a vector: `[`, then every element's
 * text followed by `,`, then `]` (the trailing comma is part of the format). Elements arrive
 * already rendered, as strings.
 */
module Rendering {

  datatype Option<T> = None | Some(value: T)

  /** Every item followed by a comma. */
  function Terminated(items: seq<string>): string
  {
    if items == [] then "" else items[0] + "," + Terminated(items[1..])
  }

  /** The whole rendering of a vector whose elements print as `items`: brackets around the items. */
  function Render(items: seq<string>): (r: string)
    ensures |r| == 2 + TotalLength(items) + |items|
    ensures r[0] == '[' && r[|r| - 1] == ']'
  {
    TerminatedLength(items);
    "[" + Terminated(items) + "]"
  }

  /** The texts of elements `s`, each printed by `show`, in order. */
  function Shown<T>(s: seq<T>, show: T -> string): (texts: seq<string>)
    ensures |texts| == |s|
  {
    seq(|s|, i requires 0 <= i < |s| => show(s[i]))
  }

  /** Appending one more element appends its text and a comma: the loop's step. */
  lemma {:induction false} TerminatedSnoc(items: seq<string>, x: string)
    ensures Terminated(items + [x]) == Terminated(items) + x + ","
  {
    if items == [] {
      assert items + [x] == [x];
    } else {
      assert (items + [x])[1..] == items[1..] + [x];
      TerminatedSnoc(items[1..], x);
    }
  }

  /** Total number of characters in the item texts. */
  function TotalLength(items: seq<string>): nat
  {
    if items == [] then 0 else |items[0]| + TotalLength(items[1..])
  }

  /** The item texts with their terminators: each item's text and one comma per item. */
  lemma {:induction false} TerminatedLength(items: seq<string>)
    ensures |Terminated(items)| == TotalLength(items) + |items|
  {
    if items != [] {
      TerminatedLength(items[1..]);
    }
  }

  /** The position of the first comma in `t`, or `|t|` if there is none. */
  function FirstComma(t: string): (k: nat)
    ensures k <= |t|
    ensures k < |t| ==> t[k] == ','
    ensures forall j :: 0 <= j < k ==> t[j] != ','
  {
    if t == [] then 0
    else if t[0] == ',' then 0
    else 1 + FirstComma(t[1..])
  }

  /** Splits comma-terminated text back into its items; an unterminated tail is an item of its own. */
  function SplitTerminated(t: string): seq<string>
    decreases |t|
  {
    if t == [] then []
    else
      var k := FirstComma(t);
      if k == |t| then [t] else [t[..k]] + SplitTerminated(t[k + 1..])
  }

  /** Reads a bracketed rendering back into item texts; `None` when the brackets are missing. */
  function Parse(s: string): Option<seq<string>>
  {
    if |s| >= 2 && s[0] == '[' && s[|s| - 1] == ']' then Some(SplitTerminated(s[1..|s| - 1]))
    else None
  }

  lemma {:induction false} SplitTerminatedInverse(items: seq<string>)
    requires forall i :: 0 <= i < |items| ==> ',' !in items[i]
    ensures SplitTerminated(Terminated(items)) == items
  {
    if items != [] {
      var t := Terminated(items);
      var rest := Terminated(items[1..]);
      assert t == items[0] + ("," + rest);
      assert FirstComma(t) == |items[0]| by {
        assert t[|items[0]|] == ',';
        forall j | 0 <= j < |items[0]| ensures t[j] != ',' {
          assert t[j] == items[0][j];
        }
      }
      assert t[..|items[0]|] == items[0];
      assert t[|items[0]| + 1..] == rest;
      SplitTerminatedInverse(items[1..]);
    }
  }

  /**
   * Round trip: when no element's text contains a comma, the rendering determines the
   * elements, and an empty vector renders as `[]`.
   */
  lemma RenderRoundTrip(items: seq<string>)
    requires forall i :: 0 <= i < |items| ==> ',' !in items[i]
    ensures Parse(Render(items)) == Some(items)
    ensures items == [] <==> Render(items) == "[]"
  {
    var s := Render(items);
    assert s[1..|s| - 1] == Terminated(items);
    SplitTerminatedInverse(items);
  }
}
