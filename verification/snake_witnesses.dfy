/** A snake as long as it can be, with food in front of it. */
module SnakeWitnesses {
  import opened Collections
  import opened Snake

  /** The k-th cell of a path that sweeps the board row by row, back and forth. */
  function Sweep(k: nat): Pt {
    Pt(PX + if k / PW % 2 == 0 then k % PW else PW - 1 - k % PW, PY + k / PW)
  }

  lemma SweepNext(k: nat)
    requires k + 1 < PW * PH
    ensures InPlay(Sweep(k)) && InPlay(Sweep(k + 1)) && Adjacent(Sweep(k + 1), Sweep(k))
  {
    if k % PW < PW - 1 {
      assert (k + 1) / PW == k / PW && (k + 1) % PW == k % PW + 1;
      var d := if k / PW % 2 == 0 then Pt(1, 0) else Pt(-1, 0);
      assert Sweep(k + 1) == Towards(Sweep(k), d);
    } else {
      assert (k + 1) / PW == k / PW + 1 && (k + 1) % PW == 0;
      assert Sweep(k + 1) == Towards(Sweep(k), Pt(0, 1));
    }
  }

  lemma SweepDistinct(j: nat, k: nat)
    requires j != k
    ensures Sweep(j) != Sweep(k)
  {
  }

  /** The first 512 cells, head last. */
  function LongBody(): seq<Pt> { seq(MAX_LEN, i requires 0 <= i < MAX_LEN => Sweep(MAX_LEN - 1 - i)) }

  lemma LongBodyAt(i: nat)
    requires i < MAX_LEN
    ensures |LongBody()| == MAX_LEN && LongBody()[i] == Sweep(MAX_LEN - 1 - i)
  {
    hide Sweep;
  }

  lemma LongBodyDistinct()
    ensures Distinct(LongBody())
  {
    hide Sweep, LongBody;
    LongBodyAt(0);
    forall i, j | 0 <= i < j < MAX_LEN ensures LongBody()[i] != LongBody()[j] {
      LongBodyAt(i);
      LongBodyAt(j);
      SweepDistinct(MAX_LEN - 1 - i, MAX_LEN - 1 - j);
    }
  }

  lemma LongBodyConnected()
    ensures Connected(LongBody())
  {
    hide Adjacent, Sweep, LongBody;
    LongBodyAt(0);
    forall i, j | 0 <= i < j < MAX_LEN && j == i + 1 ensures Adjacent(LongBody()[i], LongBody()[j]) {
      LongBodyAt(i);
      LongBodyAt(j);
      SweepNext(MAX_LEN - 1 - j);
    }
  }

  lemma LongBodyGood()
    ensures GoodBody(LongBody())
  {
    hide Distinct, Connected, Sweep, LongBody, InPlay;
    LongBodyAt(0);
    LongBodyDistinct();
    LongBodyConnected();
    forall i | 0 <= i < MAX_LEN ensures InPlay(LongBody()[i]) {
      LongBodyAt(i);
      SweepNext(MAX_LEN - 1 - i);
    }
  }

  lemma SweepNotIn(k: nat)
    requires k >= MAX_LEN
    ensures Sweep(k) !in LongBody()
  {
    forall i | 0 <= i < MAX_LEN ensures LongBody()[i] != Sweep(k) {
      SweepDistinct(MAX_LEN - 1 - i, k);
    }
  }

  /** The screen that shows a body and its food. */
  function Picture(body: seq<Pt>, food: Pt): (cells: seq<char>)
    ensures |cells| == VGA_W * VGA_H
  {
    seq(VGA_W * VGA_H, i requires 0 <= i < VGA_W * VGA_H => Look(body, food, Pt(i % VGA_W, i / VGA_W)))
  }

  lemma PictureDrawn(body: seq<Pt>, food: Pt)
    ensures Drawn(Picture(body, food), body, food)
  {
    forall p | InPlay(p)
      ensures 0 <= Cell(p) < VGA_W * VGA_H && ShownAt(Picture(body, food), p) == Look(body, food, p)
    {
      assert Cell(p) % VGA_W == p.x && Cell(p) / VGA_W == p.y;
    }
  }

  /** A good state with a faithful picture in which the snake eats in vain, and a tick from it
      that leaves the old tail on the screen. */
  lemma TailStays() returns (a: State, b: State)
    ensures GoodState(a) && Drawn(a.cells, a.body, a.food) && EatsInVain(a, [])
    ensures Plays(a, [], b) && !Drawn(b.cells, b.body, b.food)
  {
    hide Drawn, Distinct, Connected, Redrawn, Picture, LongBody, InPlay;
    LongBodyAt(MAX_LEN - 1);
    LongBodyAt(0);
    var body, food := LongBody(), Sweep(MAX_LEN);
    LongBodyGood();
    SweepNext(MAX_LEN);
    SweepNotIn(MAX_LEN);
    PictureDrawn(body, food);
    a := State(body, Pt(1, 0), food, Picture(body, food));
    var food' := Sweep(MAX_LEN + 1);
    SweepNotIn(MAX_LEN + 1);
    b := State(Moved(body, food, false), Pt(1, 0), food', Redrawn(a.cells, body[MAX_LEN - 1], food, true, food'));
    InMoved(body, food, false, food');
    PlaysDrawn(a, [], b);
  }
}
