/**
 The small worked example of day 15: an 8 by 8 warehouse, fifteen instructions,
 a GPS sum of 2028. Every instruction is a lemma about one step, and every push
 of a carton row is proved one carton at a time against a literal warehouse.
 */
module Day15Example {
  import opened Common
  import opened Grid
  import opened Day15

  const ExampleMap: seq<string> := ["########", "#..O.O.#", "##@.O..#", "#...O..#", "#.#.O..#", "#...O..#", "#......#", "########"]
  const ExampleMoves: string := "<^^>>>vv<v>>v<<"

  /** Short names for the literal warehouses below. */
  const W := Wall
  const N := Nothing
  const C := Carton
  const R := Robot

  const Example0: Warehouse := [
      [W, W, W, W, W, W, W, W],
      [W, N, N, C, N, C, N, W],
      [W, W, R, N, C, N, N, W],
      [W, N, N, N, C, N, N, W],
      [W, N, W, N, C, N, N, W],
      [W, N, N, N, C, N, N, W],
      [W, N, N, N, N, N, N, W],
      [W, W, W, W, W, W, W, W]]

  const Example1: Warehouse := [
      [W, W, W, W, W, W, W, W],
      [W, N, R, C, N, C, N, W],
      [W, W, N, N, C, N, N, W],
      [W, N, N, N, C, N, N, W],
      [W, N, W, N, C, N, N, W],
      [W, N, N, N, C, N, N, W],
      [W, N, N, N, N, N, N, W],
      [W, W, W, W, W, W, W, W]]

  const Example2: Warehouse := [
      [W, W, W, W, W, W, W, W],
      [W, N, N, R, C, C, N, W],
      [W, W, N, N, C, N, N, W],
      [W, N, N, N, C, N, N, W],
      [W, N, W, N, C, N, N, W],
      [W, N, N, N, C, N, N, W],
      [W, N, N, N, N, N, N, W],
      [W, W, W, W, W, W, W, W]]

  const Example3: Warehouse := [
      [W, W, W, W, W, W, W, W],
      [W, N, N, N, R, C, C, W],
      [W, W, N, N, C, N, N, W],
      [W, N, N, N, C, N, N, W],
      [W, N, W, N, C, N, N, W],
      [W, N, N, N, C, N, N, W],
      [W, N, N, N, N, N, N, W],
      [W, W, W, W, W, W, W, W]]

  const Example4: Warehouse := [
      [W, W, W, W, W, W, W, W],
      [W, N, N, N, N, C, C, W],
      [W, W, N, N, R, N, N, W],
      [W, N, N, N, C, N, N, W],
      [W, N, W, N, C, N, N, W],
      [W, N, N, N, C, N, N, W],
      [W, N, N, N, C, N, N, W],
      [W, W, W, W, W, W, W, W]]

  const Example5: Warehouse := [
      [W, W, W, W, W, W, W, W],
      [W, N, N, N, N, C, C, W],
      [W, W, N, R, N, N, N, W],
      [W, N, N, N, C, N, N, W],
      [W, N, W, N, C, N, N, W],
      [W, N, N, N, C, N, N, W],
      [W, N, N, N, C, N, N, W],
      [W, W, W, W, W, W, W, W]]

  const Example6: Warehouse := [
      [W, W, W, W, W, W, W, W],
      [W, N, N, N, N, C, C, W],
      [W, W, N, N, N, N, N, W],
      [W, N, N, R, C, N, N, W],
      [W, N, W, N, C, N, N, W],
      [W, N, N, N, C, N, N, W],
      [W, N, N, N, C, N, N, W],
      [W, W, W, W, W, W, W, W]]

  const Example7: Warehouse := [
      [W, W, W, W, W, W, W, W],
      [W, N, N, N, N, C, C, W],
      [W, W, N, N, N, N, N, W],
      [W, N, N, N, R, C, N, W],
      [W, N, W, N, C, N, N, W],
      [W, N, N, N, C, N, N, W],
      [W, N, N, N, C, N, N, W],
      [W, W, W, W, W, W, W, W]]

  const Example8: Warehouse := [
      [W, W, W, W, W, W, W, W],
      [W, N, N, N, N, C, C, W],
      [W, W, N, N, N, N, N, W],
      [W, N, N, N, N, R, C, W],
      [W, N, W, N, C, N, N, W],
      [W, N, N, N, C, N, N, W],
      [W, N, N, N, C, N, N, W],
      [W, W, W, W, W, W, W, W]]

  const Example9: Warehouse := [
      [W, W, W, W, W, W, W, W],
      [W, N, N, N, N, C, C, W],
      [W, W, N, N, N, N, N, W],
      [W, N, N, N, N, N, C, W],
      [W, N, W, N, C, R, N, W],
      [W, N, N, N, C, N, N, W],
      [W, N, N, N, C, N, N, W],
      [W, W, W, W, W, W, W, W]]

  const Example10: Warehouse := [
      [W, W, W, W, W, W, W, W],
      [W, N, N, N, N, C, C, W],
      [W, W, N, N, N, N, N, W],
      [W, N, N, N, N, N, C, W],
      [W, N, W, C, R, N, N, W],
      [W, N, N, N, C, N, N, W],
      [W, N, N, N, C, N, N, W],
      [W, W, W, W, W, W, W, W]]

  lemma ExampleStep0(s: State)
    requires s == State(2, 2, Example0)
    ensures Execute(s, Left) == State(2, 2, Example0)
  {
    assert !CanMove(s.items, 2, 2, Left);
  }

  lemma ExampleStep1(s: State)
    requires s == State(2, 2, Example0)
    ensures Execute(s, Up) == State(2, 1, Example1)
  {
    ExampleCan1(s.items);
    ExamplePush1(s.items);
  }

  lemma ExampleCan1(m: Warehouse)
    requires m == Example0
    ensures CanMove(m, 2, 2, Up)
  {
  }

  lemma ExampleSwap1(m: Warehouse)
    requires m == Example0
    ensures Swap(m, 2, 2, 2, 1) == Example1
  {
    var r := Swap(m, 2, 2, 2, 1);
    assert r[1] == Example1[1];
    assert r[2] == Example1[2];
  }

  lemma ExamplePush1(m: Warehouse)
    requires m == Example0
    ensures MoveItem(m, 2, 2, Up) == Example1
  {
    PushIntoFree(m, 2, 2, Up);
    ExampleSwap1(m);
  }

  lemma ExampleStep2(s: State)
    requires s == State(2, 1, Example1)
    ensures Execute(s, Up) == State(2, 1, Example1)
  {
    assert !CanMove(s.items, 2, 1, Up);
  }

  lemma ExampleStep3(s: State)
    requires s == State(2, 1, Example1)
    ensures Execute(s, Right) == State(3, 1, Example2)
  {
    ExampleCan3(s.items);
    ExamplePush3(s.items);
  }

  lemma ExampleCan3(m: Warehouse)
    requires m == Example1
    ensures CanMove(m, 2, 1, Right)
  {
    assert CanMove(m, 3, 1, Right);
  }

  const Example3From31: Warehouse := [
      [W, W, W, W, W, W, W, W],
      [W, N, R, N, C, C, N, W],
      [W, W, N, N, C, N, N, W],
      [W, N, N, N, C, N, N, W],
      [W, N, W, N, C, N, N, W],
      [W, N, N, N, C, N, N, W],
      [W, N, N, N, N, N, N, W],
      [W, W, W, W, W, W, W, W]]

  lemma ExampleSwap3From31(m: Warehouse)
    requires m == Example1
    ensures Swap(m, 3, 1, 4, 1) == Example3From31
  {
    var r := Swap(m, 3, 1, 4, 1);
    assert r[1] == Example3From31[1];
  }

  lemma ExamplePush3From31(m: Warehouse)
    requires m == Example1
    ensures MoveItem(m, 3, 1, Right) == Example3From31
  {
    PushIntoFree(m, 3, 1, Right);
    ExampleSwap3From31(m);
  }

  lemma ExampleSwap3()
    ensures Swap(Example3From31, 2, 1, 3, 1) == Example2
  {
    var r := Swap(Example3From31, 2, 1, 3, 1);
    assert r[1] == Example2[1];
  }

  lemma ExamplePush3(m: Warehouse)
    requires m == Example1
    ensures MoveItem(m, 2, 1, Right) == Example2
  {
    ExamplePush3From31(m);
    PushCarton(m, 2, 1, Right);
    ExampleSwap3();
  }

  lemma ExampleStep4(s: State)
    requires s == State(3, 1, Example2)
    ensures Execute(s, Right) == State(4, 1, Example3)
  {
    ExampleCan4(s.items);
    ExamplePush4(s.items);
  }

  lemma ExampleCan4(m: Warehouse)
    requires m == Example2
    ensures CanMove(m, 3, 1, Right)
  {
    assert CanMove(m, 5, 1, Right);
    assert CanMove(m, 4, 1, Right);
  }

  const Example4From51: Warehouse := [
      [W, W, W, W, W, W, W, W],
      [W, N, N, R, C, N, C, W],
      [W, W, N, N, C, N, N, W],
      [W, N, N, N, C, N, N, W],
      [W, N, W, N, C, N, N, W],
      [W, N, N, N, C, N, N, W],
      [W, N, N, N, N, N, N, W],
      [W, W, W, W, W, W, W, W]]

  lemma ExampleSwap4From51(m: Warehouse)
    requires m == Example2
    ensures Swap(m, 5, 1, 6, 1) == Example4From51
  {
    var r := Swap(m, 5, 1, 6, 1);
    assert r[1] == Example4From51[1];
  }

  lemma ExamplePush4From51(m: Warehouse)
    requires m == Example2
    ensures MoveItem(m, 5, 1, Right) == Example4From51
  {
    PushIntoFree(m, 5, 1, Right);
    ExampleSwap4From51(m);
  }

  const Example4From41: Warehouse := [
      [W, W, W, W, W, W, W, W],
      [W, N, N, R, N, C, C, W],
      [W, W, N, N, C, N, N, W],
      [W, N, N, N, C, N, N, W],
      [W, N, W, N, C, N, N, W],
      [W, N, N, N, C, N, N, W],
      [W, N, N, N, N, N, N, W],
      [W, W, W, W, W, W, W, W]]

  lemma ExampleSwap4From41()
    ensures Swap(Example4From51, 4, 1, 5, 1) == Example4From41
  {
    var r := Swap(Example4From51, 4, 1, 5, 1);
    assert r[1] == Example4From41[1];
  }

  lemma ExamplePush4From41(m: Warehouse)
    requires m == Example2
    ensures MoveItem(m, 4, 1, Right) == Example4From41
  {
    ExamplePush4From51(m);
    PushCarton(m, 4, 1, Right);
    ExampleSwap4From41();
  }

  lemma ExampleSwap4()
    ensures Swap(Example4From41, 3, 1, 4, 1) == Example3
  {
    var r := Swap(Example4From41, 3, 1, 4, 1);
    assert r[1] == Example3[1];
  }

  lemma ExamplePush4(m: Warehouse)
    requires m == Example2
    ensures MoveItem(m, 3, 1, Right) == Example3
  {
    ExamplePush4From41(m);
    PushCarton(m, 3, 1, Right);
    ExampleSwap4();
  }

  lemma ExampleStep5(s: State)
    requires s == State(4, 1, Example3)
    ensures Execute(s, Right) == State(4, 1, Example3)
  {
    assert !CanMove(s.items, 6, 1, Right);
    assert !CanMove(s.items, 5, 1, Right);
    assert !CanMove(s.items, 4, 1, Right);
  }

  lemma ExampleStep6(s: State)
    requires s == State(4, 1, Example3)
    ensures Execute(s, Down) == State(4, 2, Example4)
  {
    ExampleCan6(s.items);
    ExamplePush6(s.items);
  }

  lemma ExampleCan6(m: Warehouse)
    requires m == Example3
    ensures CanMove(m, 4, 1, Down)
  {
    assert CanMove(m, 4, 5, Down);
    assert CanMove(m, 4, 4, Down);
    assert CanMove(m, 4, 3, Down);
    assert CanMove(m, 4, 2, Down);
  }

  const Example6From45: Warehouse := [
      [W, W, W, W, W, W, W, W],
      [W, N, N, N, R, C, C, W],
      [W, W, N, N, C, N, N, W],
      [W, N, N, N, C, N, N, W],
      [W, N, W, N, C, N, N, W],
      [W, N, N, N, N, N, N, W],
      [W, N, N, N, C, N, N, W],
      [W, W, W, W, W, W, W, W]]

  lemma ExampleSwap6From45(m: Warehouse)
    requires m == Example3
    ensures Swap(m, 4, 5, 4, 6) == Example6From45
  {
    var r := Swap(m, 4, 5, 4, 6);
    assert r[5] == Example6From45[5];
    assert r[6] == Example6From45[6];
  }

  lemma ExamplePush6From45(m: Warehouse)
    requires m == Example3
    ensures MoveItem(m, 4, 5, Down) == Example6From45
  {
    PushIntoFree(m, 4, 5, Down);
    ExampleSwap6From45(m);
  }

  const Example6From44: Warehouse := [
      [W, W, W, W, W, W, W, W],
      [W, N, N, N, R, C, C, W],
      [W, W, N, N, C, N, N, W],
      [W, N, N, N, C, N, N, W],
      [W, N, W, N, N, N, N, W],
      [W, N, N, N, C, N, N, W],
      [W, N, N, N, C, N, N, W],
      [W, W, W, W, W, W, W, W]]

  lemma ExampleSwap6From44()
    ensures Swap(Example6From45, 4, 4, 4, 5) == Example6From44
  {
    var r := Swap(Example6From45, 4, 4, 4, 5);
    assert r[4] == Example6From44[4];
    assert r[5] == Example6From44[5];
  }

  lemma ExamplePush6From44(m: Warehouse)
    requires m == Example3
    ensures MoveItem(m, 4, 4, Down) == Example6From44
  {
    ExamplePush6From45(m);
    PushCarton(m, 4, 4, Down);
    ExampleSwap6From44();
  }

  const Example6From43: Warehouse := [
      [W, W, W, W, W, W, W, W],
      [W, N, N, N, R, C, C, W],
      [W, W, N, N, C, N, N, W],
      [W, N, N, N, N, N, N, W],
      [W, N, W, N, C, N, N, W],
      [W, N, N, N, C, N, N, W],
      [W, N, N, N, C, N, N, W],
      [W, W, W, W, W, W, W, W]]

  lemma ExampleSwap6From43()
    ensures Swap(Example6From44, 4, 3, 4, 4) == Example6From43
  {
    var r := Swap(Example6From44, 4, 3, 4, 4);
    assert r[3] == Example6From43[3];
    assert r[4] == Example6From43[4];
  }

  lemma ExamplePush6From43(m: Warehouse)
    requires m == Example3
    ensures MoveItem(m, 4, 3, Down) == Example6From43
  {
    ExamplePush6From44(m);
    PushCarton(m, 4, 3, Down);
    ExampleSwap6From43();
  }

  const Example6From42: Warehouse := [
      [W, W, W, W, W, W, W, W],
      [W, N, N, N, R, C, C, W],
      [W, W, N, N, N, N, N, W],
      [W, N, N, N, C, N, N, W],
      [W, N, W, N, C, N, N, W],
      [W, N, N, N, C, N, N, W],
      [W, N, N, N, C, N, N, W],
      [W, W, W, W, W, W, W, W]]

  lemma ExampleSwap6From42()
    ensures Swap(Example6From43, 4, 2, 4, 3) == Example6From42
  {
    var r := Swap(Example6From43, 4, 2, 4, 3);
    assert r[2] == Example6From42[2];
    assert r[3] == Example6From42[3];
  }

  lemma ExamplePush6From42(m: Warehouse)
    requires m == Example3
    ensures MoveItem(m, 4, 2, Down) == Example6From42
  {
    ExamplePush6From43(m);
    PushCarton(m, 4, 2, Down);
    ExampleSwap6From42();
  }

  lemma ExampleSwap6()
    ensures Swap(Example6From42, 4, 1, 4, 2) == Example4
  {
    var r := Swap(Example6From42, 4, 1, 4, 2);
    assert r[1] == Example4[1];
    assert r[2] == Example4[2];
  }

  lemma ExamplePush6(m: Warehouse)
    requires m == Example3
    ensures MoveItem(m, 4, 1, Down) == Example4
  {
    ExamplePush6From42(m);
    PushCarton(m, 4, 1, Down);
    ExampleSwap6();
  }

  lemma ExampleStep7(s: State)
    requires s == State(4, 2, Example4)
    ensures Execute(s, Down) == State(4, 2, Example4)
  {
    assert !CanMove(s.items, 4, 6, Down);
    assert !CanMove(s.items, 4, 5, Down);
    assert !CanMove(s.items, 4, 4, Down);
    assert !CanMove(s.items, 4, 3, Down);
    assert !CanMove(s.items, 4, 2, Down);
  }

  lemma ExampleStep8(s: State)
    requires s == State(4, 2, Example4)
    ensures Execute(s, Left) == State(3, 2, Example5)
  {
    ExampleCan8(s.items);
    ExamplePush8(s.items);
  }

  lemma ExampleCan8(m: Warehouse)
    requires m == Example4
    ensures CanMove(m, 4, 2, Left)
  {
  }

  lemma ExampleSwap8(m: Warehouse)
    requires m == Example4
    ensures Swap(m, 4, 2, 3, 2) == Example5
  {
    var r := Swap(m, 4, 2, 3, 2);
    assert r[2] == Example5[2];
  }

  lemma ExamplePush8(m: Warehouse)
    requires m == Example4
    ensures MoveItem(m, 4, 2, Left) == Example5
  {
    PushIntoFree(m, 4, 2, Left);
    ExampleSwap8(m);
  }

  lemma ExampleStep9(s: State)
    requires s == State(3, 2, Example5)
    ensures Execute(s, Down) == State(3, 3, Example6)
  {
    ExampleCan9(s.items);
    ExamplePush9(s.items);
  }

  lemma ExampleCan9(m: Warehouse)
    requires m == Example5
    ensures CanMove(m, 3, 2, Down)
  {
  }

  lemma ExampleSwap9(m: Warehouse)
    requires m == Example5
    ensures Swap(m, 3, 2, 3, 3) == Example6
  {
    var r := Swap(m, 3, 2, 3, 3);
    assert r[2] == Example6[2];
    assert r[3] == Example6[3];
  }

  lemma ExamplePush9(m: Warehouse)
    requires m == Example5
    ensures MoveItem(m, 3, 2, Down) == Example6
  {
    PushIntoFree(m, 3, 2, Down);
    ExampleSwap9(m);
  }

  lemma ExampleStep10(s: State)
    requires s == State(3, 3, Example6)
    ensures Execute(s, Right) == State(4, 3, Example7)
  {
    ExampleCan10(s.items);
    ExamplePush10(s.items);
  }

  lemma ExampleCan10(m: Warehouse)
    requires m == Example6
    ensures CanMove(m, 3, 3, Right)
  {
    assert CanMove(m, 4, 3, Right);
  }

  const Example10From43: Warehouse := [
      [W, W, W, W, W, W, W, W],
      [W, N, N, N, N, C, C, W],
      [W, W, N, N, N, N, N, W],
      [W, N, N, R, N, C, N, W],
      [W, N, W, N, C, N, N, W],
      [W, N, N, N, C, N, N, W],
      [W, N, N, N, C, N, N, W],
      [W, W, W, W, W, W, W, W]]

  lemma ExampleSwap10From43(m: Warehouse)
    requires m == Example6
    ensures Swap(m, 4, 3, 5, 3) == Example10From43
  {
    var r := Swap(m, 4, 3, 5, 3);
    assert r[3] == Example10From43[3];
  }

  lemma ExamplePush10From43(m: Warehouse)
    requires m == Example6
    ensures MoveItem(m, 4, 3, Right) == Example10From43
  {
    PushIntoFree(m, 4, 3, Right);
    ExampleSwap10From43(m);
  }

  lemma ExampleSwap10()
    ensures Swap(Example10From43, 3, 3, 4, 3) == Example7
  {
    var r := Swap(Example10From43, 3, 3, 4, 3);
    assert r[3] == Example7[3];
  }

  lemma ExamplePush10(m: Warehouse)
    requires m == Example6
    ensures MoveItem(m, 3, 3, Right) == Example7
  {
    ExamplePush10From43(m);
    PushCarton(m, 3, 3, Right);
    ExampleSwap10();
  }

  lemma ExampleStep11(s: State)
    requires s == State(4, 3, Example7)
    ensures Execute(s, Right) == State(5, 3, Example8)
  {
    ExampleCan11(s.items);
    ExamplePush11(s.items);
  }

  lemma ExampleCan11(m: Warehouse)
    requires m == Example7
    ensures CanMove(m, 4, 3, Right)
  {
    assert CanMove(m, 5, 3, Right);
  }

  const Example11From53: Warehouse := [
      [W, W, W, W, W, W, W, W],
      [W, N, N, N, N, C, C, W],
      [W, W, N, N, N, N, N, W],
      [W, N, N, N, R, N, C, W],
      [W, N, W, N, C, N, N, W],
      [W, N, N, N, C, N, N, W],
      [W, N, N, N, C, N, N, W],
      [W, W, W, W, W, W, W, W]]

  lemma ExampleSwap11From53(m: Warehouse)
    requires m == Example7
    ensures Swap(m, 5, 3, 6, 3) == Example11From53
  {
    var r := Swap(m, 5, 3, 6, 3);
    assert r[3] == Example11From53[3];
  }

  lemma ExamplePush11From53(m: Warehouse)
    requires m == Example7
    ensures MoveItem(m, 5, 3, Right) == Example11From53
  {
    PushIntoFree(m, 5, 3, Right);
    ExampleSwap11From53(m);
  }

  lemma ExampleSwap11()
    ensures Swap(Example11From53, 4, 3, 5, 3) == Example8
  {
    var r := Swap(Example11From53, 4, 3, 5, 3);
    assert r[3] == Example8[3];
  }

  lemma ExamplePush11(m: Warehouse)
    requires m == Example7
    ensures MoveItem(m, 4, 3, Right) == Example8
  {
    ExamplePush11From53(m);
    PushCarton(m, 4, 3, Right);
    ExampleSwap11();
  }

  lemma ExampleStep12(s: State)
    requires s == State(5, 3, Example8)
    ensures Execute(s, Down) == State(5, 4, Example9)
  {
    ExampleCan12(s.items);
    ExamplePush12(s.items);
  }

  lemma ExampleCan12(m: Warehouse)
    requires m == Example8
    ensures CanMove(m, 5, 3, Down)
  {
  }

  lemma ExampleSwap12(m: Warehouse)
    requires m == Example8
    ensures Swap(m, 5, 3, 5, 4) == Example9
  {
    var r := Swap(m, 5, 3, 5, 4);
    assert r[3] == Example9[3];
    assert r[4] == Example9[4];
  }

  lemma ExamplePush12(m: Warehouse)
    requires m == Example8
    ensures MoveItem(m, 5, 3, Down) == Example9
  {
    PushIntoFree(m, 5, 3, Down);
    ExampleSwap12(m);
  }

  lemma ExampleStep13(s: State)
    requires s == State(5, 4, Example9)
    ensures Execute(s, Left) == State(4, 4, Example10)
  {
    ExampleCan13(s.items);
    ExamplePush13(s.items);
  }

  lemma ExampleCan13(m: Warehouse)
    requires m == Example9
    ensures CanMove(m, 5, 4, Left)
  {
    assert CanMove(m, 4, 4, Left);
  }

  const Example13From44: Warehouse := [
      [W, W, W, W, W, W, W, W],
      [W, N, N, N, N, C, C, W],
      [W, W, N, N, N, N, N, W],
      [W, N, N, N, N, N, C, W],
      [W, N, W, C, N, R, N, W],
      [W, N, N, N, C, N, N, W],
      [W, N, N, N, C, N, N, W],
      [W, W, W, W, W, W, W, W]]

  lemma ExampleSwap13From44(m: Warehouse)
    requires m == Example9
    ensures Swap(m, 4, 4, 3, 4) == Example13From44
  {
    var r := Swap(m, 4, 4, 3, 4);
    assert r[4] == Example13From44[4];
  }

  lemma ExamplePush13From44(m: Warehouse)
    requires m == Example9
    ensures MoveItem(m, 4, 4, Left) == Example13From44
  {
    PushIntoFree(m, 4, 4, Left);
    ExampleSwap13From44(m);
  }

  lemma ExampleSwap13()
    ensures Swap(Example13From44, 5, 4, 4, 4) == Example10
  {
    var r := Swap(Example13From44, 5, 4, 4, 4);
    assert r[4] == Example10[4];
  }

  lemma ExamplePush13(m: Warehouse)
    requires m == Example9
    ensures MoveItem(m, 5, 4, Left) == Example10
  {
    ExamplePush13From44(m);
    PushCarton(m, 5, 4, Left);
    ExampleSwap13();
  }

  lemma ExampleStep14(s: State)
    requires s == State(4, 4, Example10)
    ensures Execute(s, Left) == State(4, 4, Example10)
  {
    assert !CanMove(s.items, 3, 4, Left);
    assert !CanMove(s.items, 4, 4, Left);
  }

  const ExampleInstructions: seq<Instruction> := [Left, Up, Up, Right, Right, Right, Down, Down, Left, Down, Right, Right, Down, Left, Left]

  lemma ExampleRow0()
    ensures LoadRow(ExampleMap[0], false) == Some(Example0[0])
  {
    LoadRowNarrow(ExampleMap[0], Example0[0]);
  }

  lemma ExampleRow1()
    ensures LoadRow(ExampleMap[1], false) == Some(Example0[1])
  {
    LoadRowNarrow(ExampleMap[1], Example0[1]);
  }

  lemma ExampleRow2()
    ensures LoadRow(ExampleMap[2], false) == Some(Example0[2])
  {
    LoadRowNarrow(ExampleMap[2], Example0[2]);
  }

  lemma ExampleRow3()
    ensures LoadRow(ExampleMap[3], false) == Some(Example0[3])
  {
    LoadRowNarrow(ExampleMap[3], Example0[3]);
  }

  lemma ExampleRow4()
    ensures LoadRow(ExampleMap[4], false) == Some(Example0[4])
  {
    LoadRowNarrow(ExampleMap[4], Example0[4]);
  }

  lemma ExampleRow5()
    ensures LoadRow(ExampleMap[5], false) == Some(Example0[5])
  {
    LoadRowNarrow(ExampleMap[5], Example0[5]);
  }

  lemma ExampleRow6()
    ensures LoadRow(ExampleMap[6], false) == Some(Example0[6])
  {
    LoadRowNarrow(ExampleMap[6], Example0[6]);
  }

  lemma ExampleRow7()
    ensures LoadRow(ExampleMap[7], false) == Some(Example0[7])
  {
    LoadRowNarrow(ExampleMap[7], Example0[7]);
  }

  lemma ExampleRows(lines: seq<string>)
    requires lines == ExampleMap
    ensures LoadRows(lines, false) == Some(Example0)
  {
    forall j | 0 <= j < |lines|
      ensures LoadRow(lines[j], false) == Some(Example0[j])
    {
      if j == 0 {
        ExampleRow0();
      } else if j == 1 {
        ExampleRow1();
      } else if j == 2 {
        ExampleRow2();
      } else if j == 3 {
        ExampleRow3();
      } else if j == 4 {
        ExampleRow4();
      } else if j == 5 {
        ExampleRow5();
      } else if j == 6 {
        ExampleRow6();
      } else {
        ExampleRow7();
      }
    }
    LoadRowsExact(lines, Example0, false);
  }

  lemma ExampleRobot(lines: seq<string>)
    requires lines == ExampleMap
    ensures RobotIn(lines) == Some((2, 2))
  {
    assert RobotInLine(ExampleMap[7]) == None;
    assert RobotInLine(ExampleMap[6]) == None;
    assert RobotInLine(ExampleMap[5]) == None;
    assert RobotInLine(ExampleMap[4]) == None;
    assert RobotInLine(ExampleMap[3]) == None;
    RobotInLineExact(ExampleMap[2], 2);
    assert lines[..8][7] == ExampleMap[7];
    assert lines[..8][..7] == lines[..7];
    assert RobotIn(lines[..8]) == Some((2, 2));
    assert lines[..7][6] == ExampleMap[6];
    assert lines[..7][..6] == lines[..6];
    assert RobotIn(lines[..7]) == Some((2, 2));
    assert lines[..6][5] == ExampleMap[5];
    assert lines[..6][..5] == lines[..5];
    assert RobotIn(lines[..6]) == Some((2, 2));
    assert lines[..5][4] == ExampleMap[4];
    assert lines[..5][..4] == lines[..4];
    assert RobotIn(lines[..5]) == Some((2, 2));
    assert lines[..4][3] == ExampleMap[3];
    assert lines[..4][..3] == lines[..3];
    assert RobotIn(lines[..4]) == Some((2, 2));
    assert lines[..3][2] == ExampleMap[2];
    assert RobotIn(lines[..3]) == Some((2, 2));
  }

  lemma ExampleParse(text: string)
    requires text == ExampleMoves
    ensures ParseInstructions(text) == Some(ExampleInstructions)
  {
    assert |text| == |ExampleInstructions|;
    forall i | 0 <= i < |text|
      ensures ParseInstruction(text[i]) == Some(ExampleInstructions[i])
    {
    }
    ParseInstructionsExact(text, ExampleInstructions);
  }

  lemma ExampleLoads(lines: seq<string>, text: string)
    requires lines == ExampleMap && text == ExampleMoves
    ensures LoadData(lines, text, false) == Some(Loaded(2, 2, Example0, ExampleInstructions))
  {
    ExampleRows(lines);
    ExampleRobot(lines);
    ExampleParse(text);
  }

  /** Following `d` and then `rest` from `s` is following `rest` from where `d` leads. */
  lemma FollowStep(s: State, d: Instruction, rest: seq<Instruction>, t: State)
    requires Valid(s) && Execute(s, d) == t
    ensures Follow(s, [d] + rest) == Follow(t, rest)
  {
    assert ([d] + rest)[1..] == rest;
  }

  lemma ExampleFollow(s: State)
    requires s == State(2, 2, Example0)
    ensures Follow(s, ExampleInstructions) == State(4, 4, Example10)
  {
    ExampleFollowStep0(State(2, 2, Example0));
    ExampleFollowStep1(State(2, 2, Example0));
    ExampleFollowStep2(State(2, 1, Example1));
    ExampleFollowStep3(State(2, 1, Example1));
    ExampleFollowStep4(State(3, 1, Example2));
    ExampleFollowStep5(State(4, 1, Example3));
    ExampleFollowStep6(State(4, 1, Example3));
    ExampleFollowStep7(State(4, 2, Example4));
    ExampleFollowStep8(State(4, 2, Example4));
    ExampleFollowStep9(State(3, 2, Example5));
    ExampleFollowStep10(State(3, 3, Example6));
    ExampleFollowStep11(State(4, 3, Example7));
    ExampleFollowStep12(State(5, 3, Example8));
    ExampleFollowStep13(State(5, 4, Example9));
    ExampleFollowStep14(State(4, 4, Example10));
    assert ExampleInstructions[15..] == [];
  }

  lemma ExampleFollowStep0(s: State)
    requires s == State(2, 2, Example0)
    ensures Follow(s, ExampleInstructions[0..]) == Follow(State(2, 2, Example0), ExampleInstructions[1..])
  {
    ExampleStep0(s);
    assert ExampleInstructions[0..] == [Left] + ExampleInstructions[1..];
    FollowStep(s, Left, ExampleInstructions[1..], Execute(s, Left));
  }

  lemma ExampleFollowStep1(s: State)
    requires s == State(2, 2, Example0)
    ensures Follow(s, ExampleInstructions[1..]) == Follow(State(2, 1, Example1), ExampleInstructions[2..])
  {
    ExampleStep1(s);
    assert ExampleInstructions[1..] == [Up] + ExampleInstructions[2..];
    FollowStep(s, Up, ExampleInstructions[2..], Execute(s, Up));
  }

  lemma ExampleFollowStep2(s: State)
    requires s == State(2, 1, Example1)
    ensures Follow(s, ExampleInstructions[2..]) == Follow(State(2, 1, Example1), ExampleInstructions[3..])
  {
    ExampleStep2(s);
    assert ExampleInstructions[2..] == [Up] + ExampleInstructions[3..];
    FollowStep(s, Up, ExampleInstructions[3..], Execute(s, Up));
  }

  lemma ExampleFollowStep3(s: State)
    requires s == State(2, 1, Example1)
    ensures Follow(s, ExampleInstructions[3..]) == Follow(State(3, 1, Example2), ExampleInstructions[4..])
  {
    ExampleStep3(s);
    assert ExampleInstructions[3..] == [Right] + ExampleInstructions[4..];
    FollowStep(s, Right, ExampleInstructions[4..], Execute(s, Right));
  }

  lemma ExampleFollowStep4(s: State)
    requires s == State(3, 1, Example2)
    ensures Follow(s, ExampleInstructions[4..]) == Follow(State(4, 1, Example3), ExampleInstructions[5..])
  {
    ExampleStep4(s);
    assert ExampleInstructions[4..] == [Right] + ExampleInstructions[5..];
    FollowStep(s, Right, ExampleInstructions[5..], Execute(s, Right));
  }

  lemma ExampleFollowStep5(s: State)
    requires s == State(4, 1, Example3)
    ensures Follow(s, ExampleInstructions[5..]) == Follow(State(4, 1, Example3), ExampleInstructions[6..])
  {
    ExampleStep5(s);
    assert ExampleInstructions[5..] == [Right] + ExampleInstructions[6..];
    FollowStep(s, Right, ExampleInstructions[6..], Execute(s, Right));
  }

  lemma ExampleFollowStep6(s: State)
    requires s == State(4, 1, Example3)
    ensures Follow(s, ExampleInstructions[6..]) == Follow(State(4, 2, Example4), ExampleInstructions[7..])
  {
    ExampleStep6(s);
    assert ExampleInstructions[6..] == [Down] + ExampleInstructions[7..];
    FollowStep(s, Down, ExampleInstructions[7..], Execute(s, Down));
  }

  lemma ExampleFollowStep7(s: State)
    requires s == State(4, 2, Example4)
    ensures Follow(s, ExampleInstructions[7..]) == Follow(State(4, 2, Example4), ExampleInstructions[8..])
  {
    ExampleStep7(s);
    assert ExampleInstructions[7..] == [Down] + ExampleInstructions[8..];
    FollowStep(s, Down, ExampleInstructions[8..], Execute(s, Down));
  }

  lemma ExampleFollowStep8(s: State)
    requires s == State(4, 2, Example4)
    ensures Follow(s, ExampleInstructions[8..]) == Follow(State(3, 2, Example5), ExampleInstructions[9..])
  {
    ExampleStep8(s);
    assert ExampleInstructions[8..] == [Left] + ExampleInstructions[9..];
    FollowStep(s, Left, ExampleInstructions[9..], Execute(s, Left));
  }

  lemma ExampleFollowStep9(s: State)
    requires s == State(3, 2, Example5)
    ensures Follow(s, ExampleInstructions[9..]) == Follow(State(3, 3, Example6), ExampleInstructions[10..])
  {
    ExampleStep9(s);
    assert ExampleInstructions[9..] == [Down] + ExampleInstructions[10..];
    FollowStep(s, Down, ExampleInstructions[10..], Execute(s, Down));
  }

  lemma ExampleFollowStep10(s: State)
    requires s == State(3, 3, Example6)
    ensures Follow(s, ExampleInstructions[10..]) == Follow(State(4, 3, Example7), ExampleInstructions[11..])
  {
    ExampleStep10(s);
    assert ExampleInstructions[10..] == [Right] + ExampleInstructions[11..];
    FollowStep(s, Right, ExampleInstructions[11..], Execute(s, Right));
  }

  lemma ExampleFollowStep11(s: State)
    requires s == State(4, 3, Example7)
    ensures Follow(s, ExampleInstructions[11..]) == Follow(State(5, 3, Example8), ExampleInstructions[12..])
  {
    ExampleStep11(s);
    assert ExampleInstructions[11..] == [Right] + ExampleInstructions[12..];
    FollowStep(s, Right, ExampleInstructions[12..], Execute(s, Right));
  }

  lemma ExampleFollowStep12(s: State)
    requires s == State(5, 3, Example8)
    ensures Follow(s, ExampleInstructions[12..]) == Follow(State(5, 4, Example9), ExampleInstructions[13..])
  {
    ExampleStep12(s);
    assert ExampleInstructions[12..] == [Down] + ExampleInstructions[13..];
    FollowStep(s, Down, ExampleInstructions[13..], Execute(s, Down));
  }

  lemma ExampleFollowStep13(s: State)
    requires s == State(5, 4, Example9)
    ensures Follow(s, ExampleInstructions[13..]) == Follow(State(4, 4, Example10), ExampleInstructions[14..])
  {
    ExampleStep13(s);
    assert ExampleInstructions[13..] == [Left] + ExampleInstructions[14..];
    FollowStep(s, Left, ExampleInstructions[14..], Execute(s, Left));
  }

  lemma ExampleFollowStep14(s: State)
    requires s == State(4, 4, Example10)
    ensures Follow(s, ExampleInstructions[14..]) == Follow(State(4, 4, Example10), ExampleInstructions[15..])
  {
    ExampleStep14(s);
    assert ExampleInstructions[14..] == [Left] + ExampleInstructions[15..];
    FollowStep(s, Left, ExampleInstructions[15..], Execute(s, Left));
  }

  lemma ExampleGps(m: Warehouse)
    requires m == Example10
    ensures Gps(m) == 2028
  {
    assert GpsRow(m[0], 0, 1) == 0;
    assert GpsRow(m[0], 0, 2) == 0;
    assert GpsRow(m[0], 0, 3) == 0;
    assert GpsRow(m[0], 0, 4) == 0;
    assert GpsRow(m[0], 0, 5) == 0;
    assert GpsRow(m[0], 0, 6) == 0;
    assert GpsRow(m[0], 0, 7) == 0;
    assert GpsRow(m[0], 0, 8) == 0;
    assert GpsRows(m, 1) == 0;
    assert GpsRow(m[1], 1, 1) == 0;
    assert GpsRow(m[1], 1, 2) == 0;
    assert GpsRow(m[1], 1, 3) == 0;
    assert GpsRow(m[1], 1, 4) == 0;
    assert GpsRow(m[1], 1, 5) == 0;
    assert GpsRow(m[1], 1, 6) == 105;
    assert GpsRow(m[1], 1, 7) == 211;
    assert GpsRow(m[1], 1, 8) == 211;
    assert GpsRows(m, 2) == 211;
    assert GpsRow(m[2], 2, 1) == 0;
    assert GpsRow(m[2], 2, 2) == 0;
    assert GpsRow(m[2], 2, 3) == 0;
    assert GpsRow(m[2], 2, 4) == 0;
    assert GpsRow(m[2], 2, 5) == 0;
    assert GpsRow(m[2], 2, 6) == 0;
    assert GpsRow(m[2], 2, 7) == 0;
    assert GpsRow(m[2], 2, 8) == 0;
    assert GpsRows(m, 3) == 211;
    assert GpsRow(m[3], 3, 1) == 0;
    assert GpsRow(m[3], 3, 2) == 0;
    assert GpsRow(m[3], 3, 3) == 0;
    assert GpsRow(m[3], 3, 4) == 0;
    assert GpsRow(m[3], 3, 5) == 0;
    assert GpsRow(m[3], 3, 6) == 0;
    assert GpsRow(m[3], 3, 7) == 306;
    assert GpsRow(m[3], 3, 8) == 306;
    assert GpsRows(m, 4) == 517;
    assert GpsRow(m[4], 4, 1) == 0;
    assert GpsRow(m[4], 4, 2) == 0;
    assert GpsRow(m[4], 4, 3) == 0;
    assert GpsRow(m[4], 4, 4) == 403;
    assert GpsRow(m[4], 4, 5) == 403;
    assert GpsRow(m[4], 4, 6) == 403;
    assert GpsRow(m[4], 4, 7) == 403;
    assert GpsRow(m[4], 4, 8) == 403;
    assert GpsRows(m, 5) == 920;
    assert GpsRow(m[5], 5, 1) == 0;
    assert GpsRow(m[5], 5, 2) == 0;
    assert GpsRow(m[5], 5, 3) == 0;
    assert GpsRow(m[5], 5, 4) == 0;
    assert GpsRow(m[5], 5, 5) == 504;
    assert GpsRow(m[5], 5, 6) == 504;
    assert GpsRow(m[5], 5, 7) == 504;
    assert GpsRow(m[5], 5, 8) == 504;
    assert GpsRows(m, 6) == 1424;
    assert GpsRow(m[6], 6, 1) == 0;
    assert GpsRow(m[6], 6, 2) == 0;
    assert GpsRow(m[6], 6, 3) == 0;
    assert GpsRow(m[6], 6, 4) == 0;
    assert GpsRow(m[6], 6, 5) == 604;
    assert GpsRow(m[6], 6, 6) == 604;
    assert GpsRow(m[6], 6, 7) == 604;
    assert GpsRow(m[6], 6, 8) == 604;
    assert GpsRows(m, 7) == 2028;
    assert GpsRow(m[7], 7, 1) == 0;
    assert GpsRow(m[7], 7, 2) == 0;
    assert GpsRow(m[7], 7, 3) == 0;
    assert GpsRow(m[7], 7, 4) == 0;
    assert GpsRow(m[7], 7, 5) == 0;
    assert GpsRow(m[7], 7, 6) == 0;
    assert GpsRow(m[7], 7, 7) == 0;
    assert GpsRow(m[7], 7, 8) == 0;
    assert GpsRows(m, 8) == 2028;
  }

  /** The small example of the puzzle gives 2028. */
  lemma ExampleOne(lines: seq<string>, text: string)
    requires lines == ExampleMap && text == ExampleMoves
    ensures SumOfGpsCoordinates(lines, text, false) == Some(2028)
  {
    ExampleLoads(lines, text);
    ExampleFollow(State(2, 2, Example0));
    ExampleGps(Example10);
  }
}
