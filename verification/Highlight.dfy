/** Menu buttons under the mouse: highlight.c. */
module Highlight {
  import opened PlayerModel

  /** A screen coordinate of a button: ten bits. */
  type Coordinate = x: int | 0 <= x < 1024

  type Int32 = x: int | -0x8000_0000 <= x < 0x8000_0000

  /** btni_t, without its links and command. */
  datatype Button = Button(left: Coordinate, right: Coordinate, top: Coordinate, bottom: Coordinate)

  /** What a PCI packet says of the menu: whether there is one, its buttons, and the packet's sector. */
  datatype Pci = Pci(menu: bool, buttons: seq<Button>, lbn: int)

  predicate Contains(b: Button, x: Int32, y: Int32) {
    b.left <= x <= b.right && b.top <= y <= b.bottom
  }

  function Square(d: int): (r: int)
    ensures r >= 0
  {
    d * d
  }

  /** The square of the distance from a point to the centre of a button. */
  function Distance(b: Button, x: Int32, y: Int32): (d: int)
    ensures d >= 0
  {
    Square((b.left + b.right) / 2 - x) + Square((b.top + b.bottom) / 2 - y)
  }

  const FAR: Int32 := 0x0800_0000

  lemma SquareFits(d: int)
    requires -1023 <= d <= 1023
    ensures Square(d) <= 1046529
  {
    var a := if d < 0 then -d else d;
    assert Square(d) == Square(a);
    Scales(a, 1023, a);
  }

  lemma Scales(p: int, q: int, k: int)
    requires p <= q && 0 <= k
    ensures p * k <= q * k
  {
    assert (q - p) * k >= 0;
  }

  /** For a point in the button no step of the arithmetic leaves 32 bits, and the distance stays
      below the one the search starts from. */
  lemma DistanceFits(b: Button, x: Int32, y: Int32)
    requires Contains(b, x, y)
    ensures var dx, dy := (b.left + b.right) / 2 - x, (b.top + b.bottom) / 2 - y;
            && b.left + b.right < 0x8000_0000 && b.top + b.bottom < 0x8000_0000
            && -1023 <= dx <= 1023 && -1023 <= dy <= 1023
            && dx * dx < 0x8000_0000 && dy * dy < 0x8000_0000
            && Distance(b, x, y) == dx * dx + dy * dy < FAR
  {
    SquareFits((b.left + b.right) / 2 - x);
    SquareFits((b.top + b.bottom) / 2 - y);
  }

  /** Button number n contains the point, its centre is nearest among those that do, and it has the
      lowest number among the nearest. */
  predicate IsBest(buttons: seq<Button>, x: Int32, y: Int32, n: int) {
    && 0 < n <= |buttons| && Contains(buttons[n - 1], x, y)
    && (forall k :: 0 <= k < |buttons| && Contains(buttons[k], x, y) ==>
          Distance(buttons[n - 1], x, y) <= Distance(buttons[k], x, y))
    && forall k :: 0 <= k < n - 1 && Contains(buttons[k], x, y) ==>
         Distance(buttons[n - 1], x, y) < Distance(buttons[k], x, y)
  }

  /** The best of the first n buttons stays the best when the next one is no better. */
  lemma BestStays(buttons: seq<Button>, n: nat, x: Int32, y: Int32, best: nat)
    requires n < |buttons| && IsBest(buttons[..n], x, y, best)
    requires Contains(buttons[n], x, y) ==> Distance(buttons[best - 1], x, y) <= Distance(buttons[n], x, y)
    ensures IsBest(buttons[..n + 1], x, y, best)
  {
    hide Distance, Contains;
    assert forall k :: 0 <= k < n ==> buttons[..n + 1][k] == buttons[..n][k] == buttons[k];
  }

  /** A button that is better than the best before it, or the first, is the best. */
  lemma BestChanges(buttons: seq<Button>, n: nat, x: Int32, y: Int32, best: nat)
    requires n < |buttons| && best <= n && Contains(buttons[n], x, y)
    requires best == 0 ==> forall k :: 0 <= k < n ==> !Contains(buttons[k], x, y)
    requires best != 0 ==> IsBest(buttons[..n], x, y, best)
    requires best != 0 ==> Distance(buttons[n], x, y) < Distance(buttons[best - 1], x, y)
    ensures IsBest(buttons[..n + 1], x, y, n + 1)
  {
    hide Distance, Contains;
    assert forall k :: 0 <= k < n ==> buttons[..n + 1][k] == buttons[..n][k] == buttons[k];
  }

  lemma BestContains(buttons: seq<Button>, x: Int32, y: Int32, best: nat)
    requires IsBest(buttons, x, y, best)
    ensures 0 < best <= |buttons| && Contains(buttons[best - 1], x, y)
  {
  }

  /** The loop of dvdnav_mouse_select; 0 when no button contains the point. */
  method FindButton(buttons: seq<Button>, x: Int32, y: Int32) returns (best: nat)
    ensures best == 0 <==> forall k :: 0 <= k < |buttons| ==> !Contains(buttons[k], x, y)
    ensures best != 0 ==> IsBest(buttons, x, y, best)
  {
    hide Distance, IsBest;
    best := 0;
    var dist: Int32 := FAR;
    var button := 1;
    while button <= |buttons|
      invariant 1 <= button <= |buttons| + 1 && best < button
      invariant best == 0 ==> dist == FAR && forall k :: 0 <= k < button - 1 ==> !Contains(buttons[k], x, y)
      invariant best != 0 ==> IsBest(buttons[..button - 1], x, y, best) && dist == Distance(buttons[best - 1], x, y)
    {
      var b := buttons[button - 1];
      if x >= b.left && x <= b.right && y >= b.top && y <= b.bottom {
        DistanceFits(b, x, y);
        var mx: Int32, my: Int32 := (b.left + b.right) / 2, (b.top + b.bottom) / 2;
        var dx: Int32, dy: Int32 := mx - x, my - y;
        var d: Int32 := dx * dx + dy * dy;
        if d < dist {
          BestChanges(buttons, button - 1, x, y, best);
          dist := d;
          best := button;
        } else {
          BestStays(buttons, button - 1, x, y, best);
        }
      } else if best != 0 {
        BestStays(buttons, button - 1, x, y, best);
      }
      button := button + 1;
    }
    assert buttons[..|buttons|] == buttons;
    if best != 0 {
      BestContains(buttons, x, y, best);
    }
  }

  /** The button in the highlight register of the virtual machine: its upper six bits. */
  function Selected(register: int): int {
    register / 1024
  }

  /** The fields that selection reads and changes: the highlight register, the button last reported,
      and the sector of the NAV packet last left by a command. */
  class Menu {
    var register: nat
    var button: int
    var lastCmdNav: int

    constructor (register: nat, button: int, lastCmdNav: int)
      ensures this.register == register && this.button == button && this.lastCmdNav == lastCmdNav
    {
      this.register, this.button, this.lastCmdNav := register, button, lastCmdNav;
    }

    /** dvdnav_button_select. */
    method ButtonSelect(pci: Pci, n: int) returns (ok: bool)
      modifies this`register, this`button
      ensures ok <==> pci.menu && lastCmdNav != pci.lbn && 0 < n <= |pci.buttons|
      ensures ok ==> register == 1024 * n && button == -1
      ensures !ok ==> register == old(register) && button == old(button)
    {
      if !pci.menu || lastCmdNav == pci.lbn || n <= 0 || n > |pci.buttons| {
        return false;
      }
      register, button := n * 1024, -1;
      ok := true;
    }

    /** dvdnav_mouse_select. */
    method MouseSelect(pci: Pci, x: Int32, y: Int32) returns (ok: bool)
      modifies this`register, this`button
      ensures ok <==> pci.menu && lastCmdNav != pci.lbn
                      && exists k :: 0 <= k < |pci.buttons| && Contains(pci.buttons[k], x, y)
      ensures ok ==> IsBest(pci.buttons, x, y, register / 1024)
      ensures ok && !IsBest(pci.buttons, x, y, old(register) / 1024) ==>
                register == 1024 * (register / 1024) && button == -1
      ensures !ok || IsBest(pci.buttons, x, y, old(register) / 1024) ==>
                register == old(register) && button == old(button)
    {
      if !pci.menu || lastCmdNav == pci.lbn {
        return false;
      }
      var current := Selected(register);
      var best := FindButton(pci.buttons, x, y);
      if best != 0 && best != current {
        var selected := ButtonSelect(pci, best);
      }
      ok := best != 0;
    }
  }

  /** A selection is reported: once button n has been stored, and the virtual machine answers with the
      upper bits of the register, as it does, the next call of a running player that has no hop to make
      reports the highlight of button n. */
  lemma SelectionIsReported(disc: Disc, p: Player, env: Env, register: nat, n: nat)
    requires register == 1024 * n && env.pos.button == register / 1024
    requires p.started && !env.stopped && p.cur.hop == env.pos.hop
    ensures var (q, r) := Call(disc, Apply(p, SelectButton), env);
            r == Report(Event.Highlight(n)) && q == p.(cur := p.cur.(button := n))
  {
    hide Hop, ChangeVts, ChangeCell, EndCell, NextVobu, NextBlock;
  }
}
