/**
  gui/tools.py: toggle buttons that share one container so that at most one
  tool is active at a time, the tooltip window, and `center`.

  The module-level list `toggleContainer` and everything the buttons do to
  the outside world (key bindings on the root, the root's cursor, calls of the
  callables a caller latched) live in one Gui object: its `toggleContainer`
  field is the list, and its `effects` field records those outside effects in
  order. A button's relief is a field of the button.
 */
module GuiTools {
  import opened Wrappers
  import opened Geometry
  import CalipsoTools

  /** The Tk root a button binds keys on and sets the cursor of. */
  type RootId = nat

  /** A callable a caller hands in (a key command, a destructor, a toolbar function). */
  datatype Command = Command(name: string)

  datatype Relief = Raised | Sunken

  /** One `(root, key, command)` entry of a ToggleableButton's bind map. */
  datatype Binding = Binding(root: RootId, key: string, command: Command)

  /** A shown tooltip: where it was placed and the text of its label. */
  datatype TipWindow = TipWindow(x: int, y: int, text: string)

  datatype Effect =
    | Bind(root: RootId, key: string, command: Command)
    | Unbind(root: RootId, key: string)
    | Call(command: Command)
    | SetCursor(root: RootId, cursor: string)
    | OpenTip(window: TipWindow, geometry: string)
    | DestroyTip(window: TipWindow)

  /** Binding each entry's key to its command on its root, in bind-map order. */
  function BindAll(bindMap: seq<Binding>): seq<Effect> {
    seq(|bindMap|, i requires 0 <= i < |bindMap| => Bind(bindMap[i].root, bindMap[i].key, bindMap[i].command))
  }

  /** Unbinding each entry's key on its root, in bind-map order. */
  function UnbindAll(bindMap: seq<Binding>): seq<Effect> {
    seq(|bindMap|, i requires 0 <= i < |bindMap| => Unbind(bindMap[i].root, bindMap[i].key))
  }

  /** Calling an optional callable, when one is set. */
  function CallIfSet(f: Option<Command>): seq<Effect> {
    if f.Some? then [Call(f.value)] else []
  }

  /**
    Which of the two button classes a button is. A ToolbarToggleableButton
    carries the function it calls whenever it is toggled or forced off.
   */
  datatype Kind = Plain | Toolbar(func: Option<Command>)

  /** The buttons of `es` that are toggled and are not `self`, in container order. */
  function ToggledOthers(es: seq<ToggleButton>, self: ToggleButton): (r: seq<ToggleButton>)
    reads es`isToggled
    ensures forall i :: 0 <= i < |r| ==> r[i] in es && r[i].isToggled && r[i] != self
    ensures forall i :: 0 <= i < |es| && es[i].isToggled && es[i] != self ==> es[i] in r
  {
    if es == [] then []
    else
      assert es[0] in es;
      assert forall i :: 1 <= i < |es| ==> es[i] == es[1..][i - 1];
      (if es[0].isToggled && es[0] != self then [es[0]] else []) + ToggledOthers(es[1..], self)
  }

  /**
    ToggledOthers keeps each toggled button other than `self` as often as `es`
    holds it, and drops every other button.
   */
  lemma {:induction false} ToggledOthersCount(es: seq<ToggleButton>, self: ToggleButton)
    ensures forall b :: b in es ==>
      multiset(ToggledOthers(es, self))[b] == if b.isToggled && b != self then multiset(es)[b] else 0
  {
    if es != [] {
      ToggledOthersCount(es[1..], self);
      assert es == [es[0]] + es[1..];
    }
  }

  /** No button occurs twice in `es`. */
  predicate NoDuplicates(es: seq<ToggleButton>) {
    forall i, j :: 0 <= i < j < |es| ==> es[i] != es[j]
  }

  /** In a sequence without duplicates, each element occurs exactly once. */
  lemma {:induction false} OccursOnce(es: seq<ToggleButton>, b: ToggleButton)
    requires NoDuplicates(es) && b in es
    ensures multiset(es)[b] == 1
  {
    assert es == [es[0]] + es[1..];
    if es[0] == b {
      assert b !in es[1..];
    } else {
      OccursOnce(es[1..], b);
    }
  }

  /** The outside effects of calling `unToggle` on the first `n` of `es`, in order. */
  function Logged(es: seq<ToggleButton>, n: nat): seq<Effect>
    requires n <= |es|
    reads es`bindMap, es`destructor
  {
    if n == 0 then [] else Logged(es, n - 1) + es[n - 1].UnToggleEffects()
  }

  /** The outside effects of calling `unToggle` on each of `es` in turn. */
  function AllUnToggleEffects(es: seq<ToggleButton>): seq<Effect>
    reads es`bindMap, es`destructor
  {
    Logged(es, |es|)
  }

  /** What is logged for the first `n` buttons does not depend on the buttons after them. */
  lemma {:induction false} LoggedPrefix(es: seq<ToggleButton>, m: nat, n: nat)
    requires n <= m <= |es|
    ensures Logged(es[..m], n) == Logged(es, n)
  {
    if n > 0 {
      LoggedPrefix(es, m, n - 1);
      assert es[..m][n - 1] == es[n - 1];
    }
  }

  /** Forcing off one more button appends exactly what its `unToggle` does. */
  lemma AllUnToggleEffectsStep(es: seq<ToggleButton>, i: nat)
    requires i < |es|
    ensures AllUnToggleEffects(es[..i + 1]) == AllUnToggleEffects(es[..i]) + es[i].UnToggleEffects()
  {
    LoggedPrefix(es, i, i);
    LoggedPrefix(es, i + 1, i + 1);
    LoggedPrefix(es, i + 1, i);
    assert es[..i + 1][i] == es[i];
  }

  lemma AppendAssoc<T>(a: seq<T>, b: seq<T>, c: seq<T>)
    ensures a + (b + c) == a + b + c
  {
  }

  lemma PrefixStep<T>(s: seq<T>, i: nat)
    requires i < |s|
    ensures forall x :: x in s[..i + 1] <==> x in s[..i] || x == s[i]
  {
    assert s[..i + 1] == s[..i] + [s[i]];
  }

  class Gui {
    /** Every toggle button created so far, in creation order. */
    var toggleContainer: seq<ToggleButton>
    /** The effects outside the buttons, oldest first. */
    var effects: seq<Effect>
    /** The buttons of the container as a set, kept beside it for frames. */
    ghost var buttons: set<ToggleButton>

    constructor ()
      ensures Valid()
      ensures toggleContainer == [] && effects == [] && buttons == {}
    {
      toggleContainer := [];
      effects := [];
      buttons := {};
    }

    /** `buttons` holds exactly the buttons of the container. */
    ghost predicate Tracked()
      reads this`toggleContainer, this`buttons
    {
      && (forall i :: 0 <= i < |toggleContainer| ==> toggleContainer[i] in buttons)
      && (forall b :: b in buttons ==> b in toggleContainer)
    }

    /** A button is sunken exactly when it is toggled. */
    ghost predicate Consistent()
      reads this`buttons, buttons`isToggled, buttons`relief
    {
      forall b :: b in buttons ==> (b.relief == Sunken <==> b.isToggled)
    }

    /** No two buttons are toggled at once. */
    ghost predicate AtMostOneToggled()
      reads this`buttons, buttons`isToggled
    {
      forall b, c :: b in buttons && c in buttons && b.isToggled && c.isToggled ==> b == c
    }

    ghost predicate Valid()
      reads this`toggleContainer, this`buttons, buttons`isToggled, buttons`relief
    {
      Tracked() && NoDuplicates(toggleContainer) && Consistent() && AtMostOneToggled()
    }

    /** Every button other than `self` is off and raised. */
    ghost predicate OthersOff(self: ToggleButton)
      reads this`buttons, (buttons - {self})`isToggled, (buttons - {self})`relief
    {
      forall b :: b in buttons && b != self ==> !b.isToggled && b.relief == Raised
    }

    /**
      With every other button off and raised, `self` may be in either state:
      at most one button is toggled, and the container stays valid.
     */
    lemma OthersOffValid(self: ToggleButton)
      requires Tracked() && NoDuplicates(toggleContainer)
      requires OthersOff(self) && self in buttons && (self.relief == Sunken <==> self.isToggled)
      ensures Valid()
    {
    }

    /**
      After `unToggle` has been called on each of `done`: those buttons are off
      and raised, and every other one still has the toggle state and relief
      recorded in `state0`.
     */
    ghost predicate UnToggledExactly(done: seq<ToggleButton>, state0: map<ToggleButton, (bool, Relief)>)
      reads this`buttons, buttons`isToggled, buttons`relief
    {
      forall b :: b in buttons ==>
        b in state0 && (b.isToggled, b.relief) == if b in done then (false, Raised) else state0[b]
    }

    /** One turn of the loop in UnToggleAll: forces `others[i]` off. */
    method UnToggleNext(others: seq<ToggleButton>, i: nat, ghost start: seq<Effect>,
                        ghost state0: map<ToggleButton, (bool, Relief)>)
      requires i < |others| && others[i] in buttons
      requires effects == start + AllUnToggleEffects(others[..i])
      requires UnToggledExactly(others[..i], state0)
      modifies this`effects, buttons`isToggled, buttons`relief
      ensures effects == start + AllUnToggleEffects(others[..i + 1])
      ensures UnToggledExactly(others[..i + 1], state0)
    {
      PrefixStep(others, i);
      ghost var before := AllUnToggleEffects(others[..i]);
      others[i].UnToggle(this);
      assert AllUnToggleEffects(others[..i]) == before;
      AllUnToggleEffectsStep(others, i);
      AppendAssoc(start, before, others[i].UnToggleEffects());
      assert effects == start + before + others[i].UnToggleEffects();
      assert effects == start + (before + others[i].UnToggleEffects());
    }

    /**
      Forces each of `others` off in turn: each listed button ends up off and
      raised, every other one is as it was.
     */
    method UnToggleAll(others: seq<ToggleButton>)
      requires forall b :: b in others ==> b in buttons
      modifies this`effects, buttons`isToggled, buttons`relief
      ensures effects == old(effects) + AllUnToggleEffects(others)
      ensures forall b :: b in buttons && b in others ==> !b.isToggled && b.relief == Raised
      ensures forall b :: b in buttons && b !in others ==> b.isToggled == old(b.isToggled) && b.relief == old(b.relief)
    {
      var i := 0;
      ghost var start := effects;
      ghost var state0 := map b | b in buttons :: (b.isToggled, b.relief);
      while i < |others|
        invariant 0 <= i <= |others|
        invariant effects == start + AllUnToggleEffects(others[..i])
        invariant UnToggledExactly(others[..i], state0)
      {
        UnToggleNext(others, i, start, state0);
        i := i + 1;
      }
      assert others[..|others|] == others;
    }

    /**
      Forces off every toggled button of the container other than `self`:
      afterwards every button but `self` is off and raised, and `self` is as it was.
     */
    method UnToggleOthers(self: ToggleButton)
      requires Valid()
      modifies this`effects, buttons`isToggled, buttons`relief
      ensures effects == old(effects) + old(AllUnToggleEffects(ToggledOthers(toggleContainer, self)))
      ensures OthersOff(self)
      ensures self in buttons ==> self.isToggled == old(self.isToggled) && self.relief == old(self.relief)
    {
      var others := ToggledOthers(toggleContainer, self);
      UnlistedAreOff(self, others);
      UnToggleAll(others);
    }

    /**
      In a valid container, ToggledOthers lists each toggled button other than
      `self` exactly once, and nothing else.
     */
    lemma ToggledOnce(self: ToggleButton)
      requires Valid()
      ensures forall b :: b in buttons ==>
        multiset(ToggledOthers(toggleContainer, self))[b] == if b.isToggled && b != self then 1 else 0
    {
      ToggledOthersCount(toggleContainer, self);
      forall b | b in buttons && b.isToggled && b != self
        ensures multiset(ToggledOthers(toggleContainer, self))[b] == 1
      {
        OccursOnce(toggleContainer, b);
      }
    }

    /**
      In a valid container, the buttons that ToggledOthers leaves out are
      `self` and the ones already off and raised.
     */
    lemma UnlistedAreOff(self: ToggleButton, others: seq<ToggleButton>)
      requires Valid() && others == ToggledOthers(toggleContainer, self)
      ensures forall b :: b in others ==> b in buttons
      ensures forall b :: b in buttons && b !in others && b != self ==> !b.isToggled && b.relief == Raised
      ensures self !in others
    {
      forall b | b in buttons && b !in others && b != self
        ensures !b.isToggled
      {
        var j :| 0 <= j < |toggleContainer| && toggleContainer[j] == b;
      }
    }
  }

  /**
    A toggle button of either class. A ToggleableButton (kind Plain) keeps a
    bind map: toggled on it binds every latched key on its root, toggled off
    or forced off it unbinds them and calls its destructor. A
    ToolbarToggleableButton calls its function whenever it is toggled or
    forced off and, when toggled, sets the root's cursor.
   */
  class ToggleButton {
    const kind: Kind
    const root: RootId
    var isToggled: bool
    var relief: Relief
    var cursor: string
    /** Only a ToggleableButton has these; a toolbar button's stay empty. */
    var bindMap: seq<Binding>
    var destructor: Option<Command>

    /** A new ToggleableButton: raised and off, appended to the shared container. */
    constructor Toggleable(gui: Gui, root: RootId)
      requires gui.Valid()
      modifies gui`toggleContainer, gui`buttons
      ensures gui.Valid()
      ensures gui.toggleContainer == old(gui.toggleContainer) + [this]
      ensures gui.buttons == old(gui.buttons) + {this}
      ensures kind == Plain && this.root == root && !isToggled && relief == Raised && cursor == ""
      ensures bindMap == [] && destructor == None
    {
      kind := Plain;
      this.root := root;
      isToggled := false;
      relief := Raised;
      cursor := "";
      bindMap := [];
      destructor := None;
      new;
      gui.toggleContainer := gui.toggleContainer + [this];
      gui.buttons := gui.buttons + {this};
    }

    /** A new ToolbarToggleableButton with its function: raised and off, appended to the shared container. */
    constructor ToolbarToggleable(gui: Gui, root: RootId, func: Option<Command> := None)
      requires gui.Valid()
      modifies gui`toggleContainer, gui`buttons
      ensures gui.Valid()
      ensures gui.toggleContainer == old(gui.toggleContainer) + [this]
      ensures gui.buttons == old(gui.buttons) + {this}
      ensures kind == Toolbar(func) && this.root == root && !isToggled && relief == Raised && cursor == ""
      ensures bindMap == [] && destructor == None
    {
      kind := Toolbar(func);
      this.root := root;
      isToggled := false;
      relief := Raised;
      cursor := "";
      bindMap := [];
      destructor := None;
      new;
      gui.toggleContainer := gui.toggleContainer + [this];
      gui.buttons := gui.buttons + {this};
    }

    /** What `unToggle` does outside the button. */
    function UnToggleEffects(): seq<Effect>
      reads this`bindMap, this`destructor
    {
      match kind
      case Plain => UnbindAll(bindMap) + CallIfSet(destructor)
      case Toolbar(func) => CallIfSet(func)
    }

    /**
      Records only what the caller supplied: a cursor, a key with its command,
      a destructor. A toolbar button's `latch` takes only the cursor.
     */
    method Latch(key: string := "", command: Option<Command> := None, cursor: string := "",
                 destructor: Option<Command> := None)
      requires kind.Toolbar? ==> key == "" && command == None && destructor == None
      modifies this`cursor, this`bindMap, this`destructor
      ensures this.cursor == if cursor != "" then cursor else old(this.cursor)
      ensures bindMap == if key != "" && command.Some? then old(bindMap) + [Binding(root, key, command.value)]
                         else old(bindMap)
      ensures this.destructor == if destructor.Some? then destructor else old(this.destructor)
    {
      if cursor != "" {
        this.cursor := cursor;
      }
      if key != "" && command.Some? {
        bindMap := bindMap + [Binding(root, key, command.value)];
      }
      if destructor.Some? {
        this.destructor := destructor;
      }
    }

    /**
      Forces the button off, whatever its state, and raises it. A
      ToggleableButton unbinds its keys and calls its destructor; a toolbar
      button calls its function and leaves the cursor alone.
     */
    method UnToggle(gui: Gui)
      modifies this`isToggled, this`relief, gui`effects
      ensures old(gui.Valid()) ==> gui.Valid()
      ensures !isToggled && relief == Raised
      ensures gui.effects == old(gui.effects) + UnToggleEffects()
    {
      isToggled := false;
      relief := Raised;
      gui.effects := gui.effects + UnToggleEffects();
    }

    /**
      What `toggle` does outside the button once its flag is flipped: a
      ToggleableButton turned on binds its keys, turned off unbinds them and
      calls its destructor; a toolbar button calls its function and sets the
      root's cursor, the latched one when on and "" when off.
     */
    function ToggleEffects(): seq<Effect>
      reads this`isToggled, this`bindMap, this`destructor, this`cursor
    {
      match kind
      case Plain => if isToggled then BindAll(bindMap) else UnbindAll(bindMap) + CallIfSet(destructor)
      case Toolbar(func) => CallIfSet(func) + [SetCursor(root, if isToggled then cursor else "")]
    }

    /**
      Flips the button; every other toggled button is forced off first.
      Turned on, a ToggleableButton binds its keys; turned off, it unbinds
      them and calls its destructor. A toolbar button calls its function
      either way and then sets the root's cursor: the latched one when on,
      "" when off.
     */
    method Toggle(gui: Gui)
      requires gui.Valid() && this in gui.toggleContainer
      modifies this`isToggled, this`relief, gui`effects, gui.buttons`isToggled, gui.buttons`relief
      ensures gui.Valid()
      ensures isToggled == !old(isToggled) && relief == if isToggled then Sunken else Raised
      ensures gui.OthersOff(this)
      ensures forall b :: b in gui.buttons ==> (b.isToggled <==> b == this && !old(isToggled))
      ensures gui.effects == old(gui.effects) + old(AllUnToggleEffects(ToggledOthers(gui.toggleContainer, this))) +
        ToggleEffects()
    {
      // The other buttons are forced off before the flag is flipped rather
      // than after: their unToggle neither reads nor writes this button.
      gui.UnToggleOthers(this);
      isToggled := !isToggled;
      relief := if isToggled then Sunken else Raised;
      gui.effects := gui.effects + ToggleEffects();
      gui.OthersOffValid(this);
    }
  }

  /**
    The tooltip of a widget. `showTip` is given what it asks the widget for:
    the box `bbox("insert")` returns and the widget's position on the screen.
   */
  class ToolTip {
    var tipWindow: Option<TipWindow>
    /** None until the first showTip, which is when the Python attribute first exists. */
    var text: Option<string>
    var x: int
    var y: int

    constructor ()
      ensures tipWindow == None && text == None && x == 0 && y == 0
    {
      tipWindow := None;
      text := None;
      x, y := 0, 0;
    }

    /**
      Remembers the text; unless a tip is already shown or the text is empty,
      opens a tip 27 pixels right of and 27 pixels below the box's corner.
     */
    method ShowTip(gui: Gui, text: string, box: (int, int, int, int), rootX: int, rootY: int)
      modifies this`text, this`tipWindow, gui`effects
      ensures this.text == Some(text)
      ensures old(tipWindow).Some? || text == "" ==> tipWindow == old(tipWindow) && gui.effects == old(gui.effects)
      ensures old(tipWindow).None? && text != "" ==>
        var (left, top, _, height) := box;
        var w := TipWindow(left + rootX + 27, top + height + rootY + 27, text);
        tipWindow == Some(w) && gui.effects == old(gui.effects) + [OpenTip(w, FormatPosition(w.x, w.y))]
    {
      this.text := Some(text);
      if tipWindow.Some? || text == "" {
        return;
      }
      var (left, top, _, height) := box;
      var tx := left + rootX + 27;
      var ty := top + height + rootY + 27;
      var w := TipWindow(tx, ty, text);
      tipWindow := Some(w);
      gui.effects := gui.effects + [OpenTip(w, FormatPosition(tx, ty))];
    }

    /** Always leaves no tip shown; a tip that was shown is destroyed. */
    method HideTip(gui: Gui)
      modifies this`tipWindow, gui`effects
      ensures tipWindow == None
      ensures gui.effects == old(gui.effects) + if old(tipWindow).Some? then [DestroyTip(old(tipWindow).value)] else []
    {
      var tw := tipWindow;
      tipWindow := None;
      if tw.Some? {
        gui.effects := gui.effects + [DestroyTip(tw.value)];
      }
    }
  }

  /**
    `center(toplevel)` with the window's current geometry string and the
    screen's size given: the geometry it sets, which keeps the size it read and
    centres the window. The size must parse (ValueError), have a height
    (IndexError) and have no third dimension (TypeError when formatting).
   */
  function Center(geometry: string, screenWidth: int, screenHeight: int): (r: Result<string, PyError>)
    ensures r.Success? <==> ParseSize(geometry).Success? && |ParseSize(geometry).value| == 2
    ensures r.Success? ==> ParseSize(r.value) == ParseSize(geometry)
    ensures r.Success? ==>
      var size := ParseSize(geometry).value;
      ParsePosition(r.value) == Success([CenterOffset(screenWidth, size[0]), CenterOffset(screenHeight, size[1])])
    ensures r.Success? ==>
      var size := ParseSize(geometry).value;
      r.value == FormatGeometry(size[0], size[1], CenterOffset(screenWidth, size[0]), CenterOffset(screenHeight, size[1]))
  {
    match ParseSize(geometry)
    case Failure(e) => Failure(e)
    case Success(size) =>
      if |size| < 2 then Failure(IndexError)
      else if |size| > 2 then Failure(TypeError)
      else
        var x := CenterOffset(screenWidth, size[0]);
        var y := CenterOffset(screenHeight, size[1]);
        SizeRoundTrip(size[0], size[1], x, y);
        PositionRoundTrip(size[0], size[1], x, y);
        assert [size[0], size[1]] == size;
        Success(FormatGeometry(size[0], size[1], x, y))
  }

  /** Centring a window that `center` has just centred sets the same geometry again. */
  lemma CenterIdempotent(geometry: string, screenWidth: int, screenHeight: int)
    requires Center(geometry, screenWidth, screenHeight).Success?
    ensures Center(Center(geometry, screenWidth, screenHeight).value, screenWidth, screenHeight)
         == Center(geometry, screenWidth, screenHeight)
  {
  }

  /** The two `center` functions agree: this one is the other applied to the size it reads. */
  lemma CenterAgrees(geometry: string, screenWidth: int, screenHeight: int)
    ensures Center(geometry, screenWidth, screenHeight) ==
      match ParseSize(geometry)
      case Failure(e) => Failure(e)
      case Success(size) => CalipsoTools.Center(size, screenWidth, screenHeight)
  {
  }
}
