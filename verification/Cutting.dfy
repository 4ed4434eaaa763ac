/** Cutting a run of lines into blocks before every marked line but a leading one. */
module Cutting {

  function Flatten<T>(blocks: seq<seq<T>>): seq<T> {
    if blocks == [] then [] else blocks[0] + Flatten(blocks[1..])
  }

  lemma FlattenNil<T>()
    ensures Flatten<T>([]) == []
  {
  }

  lemma FlattenCons<T>(block: seq<T>, rest: seq<seq<T>>)
    ensures Flatten([block] + rest) == block + Flatten(rest)
  {
    assert ([block] + rest)[1..] == rest;
  }

  lemma Associate<T>(a: seq<T>, b: seq<T>, c: seq<T>)
    ensures a + (b + c) == a + b + c
  {
  }

  lemma {:induction false} FlattenConcat<T>(a: seq<seq<T>>, b: seq<seq<T>>)
    ensures Flatten(a + b) == Flatten(a) + Flatten(b)
  {
    hide Flatten;
    if a == [] {
      FlattenNil<T>();
      assert a + b == b;
      assert [] + Flatten(b) == Flatten(b);
    } else {
      var head, rest := a[0], a[1..];
      FlattenConcat(rest, b);
      FlattenCons(head, rest);
      FlattenCons(head, rest + b);
      Associate(head, Flatten(rest), Flatten(b));
      assert a == [head] + rest;
      assert a + b == [head] + (rest + b);
    }
  }

  lemma FlattenOne<T>(block: seq<T>)
    ensures Flatten([block]) == block
  {
  }

  /** One more element in front of the first block. */
  function Push<T>(x: T, blocks: seq<seq<T>>): (r: seq<seq<T>>)
    requires blocks != []
    ensures |r| == |blocks|
  {
    [[x] + blocks[0]] + blocks[1..]
  }

  lemma PushConcat<T>(x: T, a: seq<seq<T>>, b: seq<seq<T>>)
    requires a != []
    ensures Push(x, a + b) == Push(x, a) + b
  {
  }

  lemma FlattenPush<T>(x: T, blocks: seq<seq<T>>)
    requires blocks != []
    ensures Flatten(Push(x, blocks)) == [x] + Flatten(blocks)
  {
  }

  lemma PushShape<T>(mark: T -> bool, x: T, blocks: seq<seq<T>>)
    requires blocks != [] && Shaped(mark, blocks) && !mark(blocks[0][0])
    ensures Shaped(mark, Push(x, blocks))
  {
  }

  lemma FrontShape<T>(mark: T -> bool, x: T, blocks: seq<seq<T>>)
    requires blocks != [] && Shaped(mark, blocks) && mark(blocks[0][0])
    ensures Shaped(mark, [[x]] + blocks)
  {
  }

  lemma FlattenTwo<T>(a: seq<T>, b: seq<T>)
    ensures Flatten([a, b]) == a + b
  {
    FlattenOne(b);
    assert [a, b][1..] == [b];
  }

  function Cut<T>(mark: T -> bool, lines: seq<T>): (r: seq<seq<T>>)
    requires lines != []
    ensures |r| >= 1
  {
    if |lines| == 1 then [lines]
    else
      var rest := Cut(mark, lines[1..]);
      if mark(lines[1]) then [[lines[0]]] + rest else Push(lines[0], rest)
  }

  /** The shape of any cut: a mark starts every block but the first, and stands nowhere else in a block. */
  predicate Shaped<T>(mark: T -> bool, blocks: seq<seq<T>>) {
    && (forall i :: 0 <= i < |blocks| ==> blocks[i] != [])
    && (forall i :: 1 <= i < |blocks| ==> mark(blocks[i][0]))
    && (forall i, j :: 0 <= i < |blocks| && 1 <= j < |blocks[i]| ==> !mark(blocks[i][j]))
  }

  /** A cut loses no line, starts with the first line, and has the shape. */
  lemma {:induction false} CutShape<T>(mark: T -> bool, lines: seq<T>)
    requires lines != []
    ensures Shaped(mark, Cut(mark, lines))
    ensures Cut(mark, lines)[0][0] == lines[0]
    ensures Flatten(Cut(mark, lines)) == lines
  {
    if |lines| == 1 {
      FlattenOne(lines);
    } else {
      CutShape(mark, lines[1..]);
      var rest := Cut(mark, lines[1..]);
      if mark(lines[1]) {
        FrontShape(mark, lines[0], rest);
        assert ([[lines[0]]] + rest)[1..] == rest;
      } else {
        PushShape(mark, lines[0], rest);
        FlattenPush(lines[0], rest);
      }
    }
  }

  /** A cut is determined by its lines. */
  lemma {:induction false} CutUnique<T>(mark: T -> bool, blocks: seq<seq<T>>)
    requires blocks != [] && Shaped(mark, blocks)
    ensures Flatten(blocks) != []
    ensures Cut(mark, Flatten(blocks)) == blocks
    decreases |Flatten(blocks)|
  {
    var lines := Flatten(blocks);
    var head := blocks[0];
    assert lines == head + Flatten(blocks[1..]);
    if |head| > 1 {
      var shorter := blocks[0 := head[1..]];
      FlattenPush(head[0], shorter);
      assert [head[0]] + head[1..] == head;
      assert Push(head[0], shorter) == blocks;
      assert lines[1..] == Flatten(shorter);
      CutUnique(mark, shorter);
      assert lines[1] == head[1];
    } else {
      assert head == [lines[0]];
      if |blocks| > 1 {
        assert lines[1..] == Flatten(blocks[1..]);
        CutUnique(mark, blocks[1..]);
        assert lines[1] == blocks[1][0] by {
          assert blocks[1..][0] == blocks[1];
          assert Flatten(blocks[1..])[0] == blocks[1][0];
        }
        assert [head] + blocks[1..] == blocks;
      } else {
        FlattenOne(head);
        assert blocks == [head];
      }
    }
  }

  /** Appending a marked run of lines appends its blocks. */
  lemma CutConcat<T>(mark: T -> bool, a: seq<T>, b: seq<T>)
    requires a != [] && b != [] && mark(b[0])
    ensures Cut(mark, a + b) == Cut(mark, a) + Cut(mark, b)
  {
    CutShape(mark, a);
    CutShape(mark, b);
    FlattenConcat(Cut(mark, a), Cut(mark, b));
    CutUnique(mark, Cut(mark, a) + Cut(mark, b));
  }

  function ExtendLast<T>(blocks: seq<seq<T>>, line: T): (r: seq<seq<T>>)
    requires blocks != []
    ensures |r| == |blocks|
  {
    blocks[|blocks| - 1 := blocks[|blocks| - 1] + [line]]
  }

  lemma FlattenExtend<T>(blocks: seq<seq<T>>, line: T)
    requires blocks != []
    ensures Flatten(ExtendLast(blocks, line)) == Flatten(blocks) + [line]
  {
    var front, last := blocks[..|blocks| - 1], blocks[|blocks| - 1];
    FlattenConcat(front, [last]);
    FlattenConcat(front, [last + [line]]);
    FlattenOne(last);
    FlattenOne(last + [line]);
    assert front + [last] == blocks;
    assert front + [last + [line]] == ExtendLast(blocks, line);
  }

  /** Appending an unmarked line lengthens the last block. */
  lemma CutSnoc<T>(mark: T -> bool, lines: seq<T>, line: T)
    requires lines != [] && !mark(line)
    ensures Cut(mark, lines + [line]) == ExtendLast(Cut(mark, lines), line)
  {
    CutShape(mark, lines);
    FlattenExtend(Cut(mark, lines), line);
    CutUnique(mark, ExtendLast(Cut(mark, lines), line));
  }
}
