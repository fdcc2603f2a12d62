/** `Operator.__repr__` and its helper `_addindent` (nbox/jobs/operator.py),
    after torch's `nn.Module.__repr__`: a node renders as `ClassName(` then one
    line `(key): <child>` per registered child, indented by two spaces, then
    `)`. The renderer recurses without a memo, so the recursion is bounded
    here by `fuel`: `None` stands for a recursion that does not end. */
module Render {
  import opened Wrappers
  import opened OrderedDict
  import opened OperatorNode
  import opened GraphWalk

  /** `s.split('\n')`. */
  function Split(s: string): (lines: seq<string>)
    ensures |lines| >= 1
  {
    if s == [] then [""]
    else if s[0] == '\n' then [""] + Split(s[1..])
    else
      var rest := Split(s[1..]);
      [[s[0]] + rest[0]] + rest[1..]
  }

  /** `sep.join(lines)`. */
  function Join(sep: string, lines: seq<string>): string
  {
    if lines == [] then ""
    else if |lines| == 1 then lines[0]
    else lines[0] + sep + Join(sep, lines[1..])
  }

  function Spaces(n: nat): string
  {
    seq(n, _ => ' ')
  }

  predicate NoNewline(s: string)
  {
    '\n' !in s
  }

  /** `_addindent(s_, numSpaces)`. */
  function AddIndent(s: string, numSpaces: nat): string
  {
    var lines := Split(s);
    if |lines| == 1 then s
    else lines[0] + "\n" + Join("\n", Indented(lines, numSpaces))
  }

  // ---------------------------------------------------------------------
  // split / join

  lemma {:induction false} SplitNoNewline(s: string)
    requires NoNewline(s)
    ensures Split(s) == [s]
  {
    if s != [] {
      assert s[0] in s;
      assert forall c :: c in s[1..] ==> c in s;
      SplitNoNewline(s[1..]);
      assert [s[0]] + s[1..] == s;
    }
  }

  lemma {:induction false} SplitLinesHaveNoNewline(s: string)
    ensures forall i :: 0 <= i < |Split(s)| ==> NoNewline(Split(s)[i])
  {
    if s != [] {
      SplitLinesHaveNoNewline(s[1..]);
    }
  }

  /** `Split` on a text that starts with a newline. */
  lemma SplitConsNewline(s: string)
    ensures Split(['\n'] + s) == [""] + Split(s)
  {
    assert (['\n'] + s)[1..] == s;
  }

  /** `Split` on a text that starts with any other character. */
  lemma SplitConsOther(c: char, s: string)
    requires c != '\n'
    ensures Split([c] + s) == [[c] + Split(s)[0]] + Split(s)[1..]
  {
    assert ([c] + s)[1..] == s;
  }

  /** Putting a first-line prefix before the lines of `a` and then appending
      those of `b` is the same as doing it the other way round. */
  lemma PrefixFirstLine(x: string, la: seq<string>, lb: seq<string>)
    requires |la| >= 1
    ensures [x + (la + lb)[0]] + (la + lb)[1..] == ([x + la[0]] + la[1..]) + lb
  {
    assert (la + lb)[0] == la[0] && (la + lb)[1..] == la[1..] + lb;
  }

  /** Splitting at a newline splits the two sides apart. */
  lemma {:induction false} SplitAtNewline(a: string, b: string)
    ensures Split(a + "\n" + b) == Split(a) + Split(b)
  {
    if a == [] {
      assert a + "\n" + b == ['\n'] + b;
      SplitConsNewline(b);
    } else {
      var c, rest := a[0], a[1..];
      var tail := rest + "\n" + b;
      assert a == [c] + rest;
      assert a + "\n" + b == [c] + tail;
      SplitAtNewline(rest, b);
      assert Split(tail) == Split(rest) + Split(b);
      if c == '\n' {
        SplitConsNewline(tail);
        SplitConsNewline(rest);
      } else {
        SplitConsOther(c, tail);
        SplitConsOther(c, rest);
        PrefixFirstLine([c], Split(rest), Split(b));
      }
    }
  }

  /** A line without newline put in front of a text joins its first line. */
  lemma {:induction false} SplitPrepend(p: string, s: string)
    requires NoNewline(p)
    ensures Split(p + s) == [p + Split(s)[0]] + Split(s)[1..]
  {
    if p != [] {
      assert p[0] in p;
      assert (p + s)[0] == p[0];
      assert forall c :: c in p[1..] ==> c in p;
      assert (p + s)[1..] == p[1..] + s;
      SplitPrepend(p[1..], s);
      var rest := Split(p[1..] + s);
      assert Split(p + s) == [[p[0]] + rest[0]] + rest[1..];
      assert [p[0]] + (p[1..] + Split(s)[0]) == p + Split(s)[0];
    } else {
      assert p + s == s;
      assert p + Split(s)[0] == Split(s)[0];
      assert Split(s) == [Split(s)[0]] + Split(s)[1..];
    }
  }

  /** `'\n'.join` then `split('\n')` gives the lines back. */
  lemma {:induction false} SplitJoin(lines: seq<string>)
    requires |lines| >= 1 && forall i :: 0 <= i < |lines| ==> NoNewline(lines[i])
    ensures Split(Join("\n", lines)) == lines
  {
    if |lines| == 1 {
      SplitNoNewline(lines[0]);
    } else {
      SplitJoin(lines[1..]);
      SplitAtNewline(lines[0], Join("\n", lines[1..]));
      SplitNoNewline(lines[0]);
    }
  }

  function Indented(lines: seq<string>, numSpaces: nat): (r: seq<string>)
    requires |lines| >= 1
    ensures |r| == |lines| - 1
  {
    seq(|lines| - 1, i requires 0 <= i < |lines| - 1 => Spaces(numSpaces) + lines[i + 1])
  }

  lemma IndentedHasNoNewline(lines: seq<string>, numSpaces: nat)
    requires |lines| >= 1 && forall i :: 0 <= i < |lines| ==> NoNewline(lines[i])
    ensures forall i :: 0 <= i < |lines| - 1 ==> NoNewline(Indented(lines, numSpaces)[i])
  {
    forall i | 0 <= i < |lines| - 1
      ensures NoNewline(Indented(lines, numSpaces)[i])
    {
      assert NoNewline(lines[i + 1]);
      assert NoNewline(Spaces(numSpaces));
      assert Indented(lines, numSpaces)[i] == Spaces(numSpaces) + lines[i + 1];
    }
  }

  /** `_addindent` leaves a text of one line as it is. */
  lemma AddIndentSingleLine(s: string, numSpaces: nat)
    requires NoNewline(s)
    ensures AddIndent(s, numSpaces) == s
  {
    SplitNoNewline(s);
  }

  /** The lines of a text of several lines after `_addindent`. */
  lemma AddIndentSplit(s: string, numSpaces: nat)
    requires |Split(s)| > 1
    ensures Split(AddIndent(s, numSpaces)) == [Split(s)[0]] + Indented(Split(s), numSpaces)
  {
    var lines := Split(s);
    var tail := Indented(lines, numSpaces);
    SplitLinesHaveNoNewline(s);
    IndentedHasNoNewline(lines, numSpaces);
    SplitJoin(tail);
    SplitAtNewline(lines[0], Join("\n", tail));
    SplitNoNewline(lines[0]);
  }

  /** Otherwise `_addindent` keeps the first line, puts `numSpaces` spaces in
      front of every other line, and keeps the number of lines. */
  lemma AddIndentLines(s: string, numSpaces: nat)
    ensures |Split(AddIndent(s, numSpaces))| == |Split(s)|
    ensures Split(AddIndent(s, numSpaces))[0] == Split(s)[0]
    ensures forall i :: 1 <= i < |Split(s)| ==>
              Split(AddIndent(s, numSpaces))[i] == Spaces(numSpaces) + Split(s)[i]
  {
    var lines := Split(s);
    if |lines| > 1 {
      AddIndentSplit(s, numSpaces);
      var out := Split(AddIndent(s, numSpaces));
      var tail := Indented(lines, numSpaces);
      assert out == [lines[0]] + tail;
      forall i | 1 <= i < |lines| ensures out[i] == Spaces(numSpaces) + lines[i] {
        assert out[i] == tail[i - 1];
      }
    } else {
      assert AddIndent(s, numSpaces) == s;
    }
  }

  // ---------------------------------------------------------------------
  // __repr__

  /** Why a `repr` does not produce a string: the node has no registry
      (it never ran `Operator.__init__`, so reading `self._operators` raises,
      or `_operators` was replaced by a value without `.items()`), or the
      recursion goes deeper than the fuel allows (on a cycle it never ends). */
  datatype ReprError = MissingRegistry | OutOfFuel

  /** The line `(key): <child repr>` of one registered child. */
  function ChildLine(key: string, childRepr: string): string
  {
    "(" + key + "): " + AddIndent(childRepr, 2)
  }

  /** The text around the child lines: `Name(` and `)`, with the lines between
      them on lines of their own, each indented by two spaces. The extra repr
      of an operator is always empty, so the lines are the child lines. */
  function Enclose(className: string, lines: seq<string>): string
  {
    className + "(" + (if lines == [] then "" else "\n  " + Join("\n  ", lines) + "\n") + ")"
  }

  /** `repr(node)` with at most `fuel` nested calls. */
  function Repr(h: Heap, id: NodeId, fuel: nat): Result<string, ReprError>
    requires Closed(h) && id in h
    decreases fuel, 0
  {
    if fuel == 0 then Err(OutOfFuel)
    else if !HasRegistry(h[id]) then Err(MissingRegistry)
    else
      var lines := ChildLines(h, h[id].children, fuel - 1);
      if lines.Err? then Err(lines.error)
      else Ok(Enclose(h[id].className, lines.value))
  }

  /** The child lines, in registration order; the first failure wins. */
  function ChildLines(h: Heap, cs: Entries<NodeId>, fuel: nat): (r: Result<seq<string>, ReprError>)
    requires Closed(h) && Values(cs) <= h.Keys
    ensures r.Ok? ==> |r.value| == |cs|
    decreases fuel, 1, |cs|
  {
    if cs == [] then Ok([])
    else
      var first := Repr(h, cs[0].1, fuel);
      if first.Err? then Err(first.error)
      else
        var rest := ChildLines(h, cs[1..], fuel);
        if rest.Err? then Err(rest.error)
        else Ok([ChildLine(cs[0].0, first.value)] + rest.value)
  }

  /** An initialised operator without children prints as `Name()`. */
  lemma ReprLeaf(h: Heap, id: NodeId, fuel: nat)
    requires Closed(h) && id in h
    requires HasRegistry(h[id]) && h[id].children == [] && fuel >= 1
    ensures Repr(h, id, fuel) == Ok(h[id].className + "()")
  {
    assert h[id].className + "(" + "" + ")" == h[id].className + "()";
  }

  lemma {:induction false} ChildLinesOk(h: Heap, cs: Entries<NodeId>, fuel: nat, c: NodeId)
    requires Closed(h) && Values(cs) <= h.Keys
    requires ChildLines(h, cs, fuel).Ok? && c in Values(cs)
    ensures c in h && Repr(h, c, fuel).Ok?
  {
    if cs[0].1 != c {
      ChildLinesOk(h, cs[1..], fuel, c);
    }
  }

  /** A `repr` that succeeds with some fuel succeeds with any larger fuel and
      gives the same text: the fuel only bounds the depth. */
  lemma {:induction false} ReprFuelMonotone(h: Heap, id: NodeId, fuel: nat, more: nat)
    requires Closed(h) && id in h
    requires fuel <= more && Repr(h, id, fuel).Ok?
    ensures Repr(h, id, more) == Repr(h, id, fuel)
    decreases fuel, 0
  {
    ChildLinesFuelMonotone(h, h[id].children, fuel - 1, more - 1);
  }

  lemma {:induction false} ChildLinesFuelMonotone(h: Heap, cs: Entries<NodeId>, fuel: nat, more: nat)
    requires Closed(h) && Values(cs) <= h.Keys
    requires fuel <= more && ChildLines(h, cs, fuel).Ok?
    ensures ChildLines(h, cs, more) == ChildLines(h, cs, fuel)
    decreases fuel, 1, |cs|
  {
    if cs != [] {
      ReprFuelMonotone(h, cs[0].1, fuel, more);
      ChildLinesFuelMonotone(h, cs[1..], fuel, more);
    }
  }

  /** A `repr` that ends is deeper than every chain of registrations below
      the node: the recursion follows each chain to its end. */
  lemma {:induction false} ReprBoundsDepth(h: Heap, p: seq<NodeId>, fuel: nat)
    requires Closed(h) && IsPath(h, p) && |p| >= 1 && p[0] in h
    requires Repr(h, p[0], fuel).Ok?
    ensures |p| <= fuel
  {
    if |p| > 1 {
      ChildLinesOk(h, h[p[0]].children, fuel - 1, p[1]);
      assert IsPath(h, p[1..]) by {
        forall i | 0 <= i < |p[1..]| - 1
          ensures p[1..][i] in h && p[1..][i + 1] in Values(h[p[1..][i]].children)
        {
          assert p[1..][i] == p[i + 1] && p[1..][i + 1] == p[i + 2];
        }
      }
      ReprBoundsDepth(h, p[1..], fuel - 1);
    }
  }

  /** An operator reachable from itself (an operator registered as its own
      child, or any longer cycle) has no `repr` for any fuel: the recursion
      never ends. */
  lemma ReprOfCycleNeverEnds(h: Heap, id: NodeId, cycle: seq<NodeId>, fuel: nat)
    requires Closed(h) && id in h
    requires IsPath(h, cycle) && |cycle| >= 2 && cycle[0] == id && cycle[|cycle| - 1] == id
    ensures !Repr(h, id, fuel).Ok?
  {
    if Repr(h, id, fuel).Ok? {
      var unrolled := UnrollPath(h, cycle, fuel);
      ReprBoundsDepth(h, unrolled, fuel);
    }
  }

  /** Going `k` times round a cycle gives a path of more than `k` nodes. */
  lemma {:induction false} UnrollPath(h: Heap, cycle: seq<NodeId>, k: nat) returns (p: seq<NodeId>)
    requires IsPath(h, cycle) && |cycle| >= 2 && cycle[0] == cycle[|cycle| - 1]
    ensures IsPath(h, p) && |p| > k && p[0] == cycle[0] && p[|p| - 1] == cycle[0]
  {
    if k == 0 {
      p := cycle;
    } else {
      var q := UnrollPath(h, cycle, k - 1);
      p := q + cycle[1..];
      forall i | 0 <= i < |p| - 1
        ensures p[i] in h && p[i + 1] in Values(h[p[i]].children)
      {
        if i < |q| - 1 {
          assert p[i] == q[i] && p[i + 1] == q[i + 1];
        } else if i == |q| - 1 {
          assert p[i] == cycle[0] && p[i + 1] == cycle[1];
        } else {
          assert p[i] == cycle[i - |q| + 1] && p[i + 1] == cycle[i - |q| + 2];
        }
      }
    }
  }

  // ---------------------------------------------------------------------
  // layout of a repr

  /** A line that starts with the two-space indent. */
  predicate IndentedLine(line: string)
  {
    |line| >= 2 && line[..2] == "  "
  }

  predicate AllIndented(lines: seq<string>)
  {
    forall i :: 0 <= i < |lines| ==> IndentedLine(lines[i])
  }

  function Prefixed(lines: seq<string>): (r: seq<string>)
    ensures |r| == |lines|
  {
    seq(|lines|, i requires 0 <= i < |lines| => "  " + lines[i])
  }

  lemma {:induction false} JoinPrefixed(lines: seq<string>)
    requires |lines| >= 1
    ensures "  " + Join("\n  ", lines) == Join("\n", Prefixed(lines))
  {
    if |lines| > 1 {
      JoinPrefixed(lines[1..]);
      assert Prefixed(lines)[1..] == Prefixed(lines[1..]);
      assert Prefixed(lines)[0] == "  " + lines[0];
      assert "  " + (lines[0] + "\n  " + Join("\n  ", lines[1..]))
          == ("  " + lines[0]) + "\n" + ("  " + Join("\n  ", lines[1..]));
    }
  }

  /** Joining texts whose lines are all indented gives a text whose lines are
      all indented. */
  lemma {:induction false} JoinKeepsIndent(texts: seq<string>)
    requires |texts| >= 1
    requires forall i :: 0 <= i < |texts| ==> AllIndented(Split(texts[i]))
    ensures AllIndented(Split(Join("\n", texts)))
  {
    if |texts| > 1 {
      JoinKeepsIndent(texts[1..]);
      SplitAtNewline(texts[0], Join("\n", texts[1..]));
      assert AllIndented(Split(texts[0]));
    }
  }

  /** Every line of an indented child line starts with the indent, when the
      child's key holds no newline. */
  lemma ChildLineIndented(key: string, childRepr: string)
    requires NoNewline(key)
    ensures AllIndented(Split("  " + ChildLine(key, childRepr)))
  {
    var head := "  (" + key + "): ";
    var body := AddIndent(childRepr, 2);
    assert "  " + ChildLine(key, childRepr) == head + body;
    assert NoNewline(head) by {
      assert head == "  (" + key + "): ";
      forall c | c in head ensures c != '\n' {
        if c !in key {
          assert c in "  (" || c in "): ";
        }
      }
    }
    SplitPrepend(head, body);
    AddIndentLines(childRepr, 2);
    var lines := Split(head + body);
    forall i | 0 <= i < |lines| ensures IndentedLine(lines[i]) {
      if i == 0 {
        assert lines[0] == head + Split(body)[0];
        assert (head + Split(body)[0])[..2] == "  ";
      } else {
        assert lines[i] == Split(body)[i];
        assert Spaces(2) == "  ";
        assert (Spaces(2) + Split(childRepr)[i])[..2] == "  ";
      }
    }
  }

  lemma {:induction false} KeyOfEntry<V>(e: Entries<V>, i: nat)
    requires i < |e|
    ensures e[i].0 in Keys(e)
  {
    if i > 0 {
      KeyOfEntry(e[1..], i - 1);
    }
  }

  lemma {:induction false} SplitCount(texts: seq<string>)
    ensures |Split(Join("\n", texts))| >= |texts|
  {
    if |texts| > 1 {
      SplitCount(texts[1..]);
      SplitAtNewline(texts[0], Join("\n", texts[1..]));
    }
  }

  lemma {:induction false} ChildLinesAreChildLines(h: Heap, cs: Entries<NodeId>, fuel: nat)
    requires Closed(h) && Values(cs) <= h.Keys && ChildLines(h, cs, fuel).Ok?
    ensures forall i :: 0 <= i < |cs| ==>
              cs[i].1 in h && Repr(h, cs[i].1, fuel).Ok? &&
              ChildLines(h, cs, fuel).value[i] == ChildLine(cs[i].0, Repr(h, cs[i].1, fuel).value)
  {
    if cs != [] {
      var first := Repr(h, cs[0].1, fuel);
      var rest := ChildLines(h, cs[1..], fuel);
      assert first.Ok? && rest.Ok?;
      var all := ChildLines(h, cs, fuel).value;
      assert all == [ChildLine(cs[0].0, first.value)] + rest.value;
      ChildLinesAreChildLines(h, cs[1..], fuel);
      forall i | 1 <= i < |cs|
        ensures cs[i].1 in h && Repr(h, cs[i].1, fuel).Ok? &&
                all[i] == ChildLine(cs[i].0, Repr(h, cs[i].1, fuel).value)
      {
        assert cs[i] == cs[1..][i - 1] && all[i] == rest.value[i - 1];
      }
    }
  }

  /** Every indented child line of a node is indented on every line. */
  lemma ChildLinesIndented(h: Heap, cs: Entries<NodeId>, fuel: nat)
    requires Closed(h) && Values(cs) <= h.Keys && ChildLines(h, cs, fuel).Ok?
    requires forall k :: k in Keys(cs) ==> NoNewline(k)
    ensures var texts := Prefixed(ChildLines(h, cs, fuel).value);
            forall i :: 0 <= i < |texts| ==> AllIndented(Split(texts[i]))
  {
    ChildLinesAreChildLines(h, cs, fuel);
    var texts := Prefixed(ChildLines(h, cs, fuel).value);
    forall i | 0 <= i < |texts| ensures AllIndented(Split(texts[i])) {
      KeyOfEntry(cs, i);
      ChildLineIndented(cs[i].0, Repr(h, cs[i].1, fuel).value);
    }
  }

  /** The frame `Name(` ... `)` around at least one child line. */
  lemma EncloseLayout(className: string, childLines: seq<string>)
    requires NoNewline(className) && |childLines| >= 1
    requires forall i :: 0 <= i < |childLines| ==> AllIndented(Split(Prefixed(childLines)[i]))
    ensures var lines := Split(Enclose(className, childLines));
            && |lines| >= 2 + |childLines|
            && lines[0] == className + "("
            && lines[|lines| - 1] == ")"
            && AllIndented(lines[1..|lines| - 1])
  {
    var tail := "  " + Join("\n  ", childLines);
    assert Enclose(className, childLines) == (className + "(") + "\n" + (tail + "\n" + ")");
    SplitAtNewline(className + "(", tail + "\n" + ")");
    SplitAtNewline(tail, ")");
    SplitNoNewline(className + "(");
    SplitNoNewline(")");
    JoinPrefixed(childLines);
    JoinKeepsIndent(Prefixed(childLines));
    SplitCount(Prefixed(childLines));
    var lines := Split(Enclose(className, childLines));
    assert lines == [className + "("] + Split(tail) + [")"];
    assert lines[1..|lines| - 1] == Split(tail);
  }

  /** The layout of `repr(node)`: a node without children prints on one line
      as `Name()`; otherwise the first line is `Name(`, the last is `)`, and
      every line between them (at least one per child) is indented by two
      spaces. The keys of the node's own children must hold no newline;
      deeper levels are indented by `_addindent` whatever their keys. */
  lemma ReprLayout(h: Heap, id: NodeId, fuel: nat)
    requires Closed(h) && id in h && Repr(h, id, fuel).Ok?
    requires NoNewline(h[id].className)
    requires forall k :: k in Keys(h[id].children) ==> NoNewline(k)
    ensures var lines := Split(Repr(h, id, fuel).value);
            if h[id].children == [] then lines == [h[id].className + "()"]
            else
              && |lines| >= 2 + |h[id].children|
              && lines[0] == h[id].className + "("
              && lines[|lines| - 1] == ")"
              && AllIndented(lines[1..|lines| - 1])
  {
    var n := h[id];
    if n.children == [] {
      ReprLeaf(h, id, fuel);
      SplitNoNewline(n.className + "()");
    } else {
      ChildLinesIndented(h, n.children, fuel - 1);
      EncloseLayout(n.className, ChildLines(h, n.children, fuel - 1).value);
    }
  }
}
