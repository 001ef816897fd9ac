/**
 * The keyboard controller of core/src/com/mygdx/kaps/controller/InputHandler.java: the seven
 * game keys, each bound to a set of libGDX key codes, the lookup of the key a code belongs to,
 * the key labels shown on screen, and what the input processor answers for each input event.
 * Quitting the application on the escape key is an effect outside the model; `Exits` says when
 * it happens.
 */
module InputHandlers {
  import opened Wrappers
  import Text

  datatype Key = LeftKey | RightKey | FlipKey | DownKey | DropKey | HoldKey | EscapeKey

  /** The declaration order of the keys, which `ofCode` scans. */
  const Keys: seq<Key> := [LeftKey, RightKey, FlipKey, DownKey, DropKey, HoldKey, EscapeKey]

  /** The key codes bound to each key. */
  function Codes(k: Key): set<int>
  {
    match k
    case LeftKey => {21, 45}
    case RightKey => {22, 32}
    case FlipKey => {19, 54}
    case DownKey => {20, 47}
    case DropKey => {31, 40}
    case HoldKey => {50, 41}
    case EscapeKey => {29, 131, 68}
  }

  /** Every key is listed once. */
  lemma KeysListsEveryKeyOnce(k: Key)
    ensures k in Keys
    ensures forall i, j :: 0 <= i < j < |Keys| ==> Keys[i] != Keys[j]
  {
  }

  /** No code is bound to two keys. */
  lemma CodesDisjoint(k1: Key, k2: Key)
    requires k1 != k2
    ensures Codes(k1) !! Codes(k2)
  {
  }

  /** The first key of `ks` bound to `code`. */
  function FirstWithCode(ks: seq<Key>, code: int): (r: Option<Key>)
    ensures r.Some? ==> r.value in ks && code in Codes(r.value)
    ensures r.None? <==> forall i :: 0 <= i < |ks| ==> code !in Codes(ks[i])
    ensures r.Some? ==> exists i :: 0 <= i < |ks| && ks[i] == r.value && forall j :: 0 <= j < i ==> code !in Codes(ks[j])
  {
    if ks == [] then None
    else if code in Codes(ks[0]) then Some(ks[0])
    else
      var r := FirstWithCode(ks[1..], code);
      if r.Some? then
        ghost var i :| 0 <= i < |ks[1..]| && ks[1..][i] == r.value && forall j :: 0 <= j < i ==> code !in Codes(ks[1..][j]);
        assert ks[i + 1] == r.value && forall j :: 0 <= j < i + 1 ==> code !in Codes(ks[j]);
        r
      else r
  }

  /** `ofCode`: the first key, in declaration order, that the code is bound to. */
  function OfCode(code: int): (r: Option<Key>)
    ensures r.Some? ==> code in Codes(r.value)
    ensures r.None? ==> forall i :: 0 <= i < |Keys| ==> code !in Codes(Keys[i])
  {
    FirstWithCode(Keys, code)
  }

  /** Since no code is bound to two keys, `ofCode` finds a key exactly when the code is bound to it. */
  lemma OfCodeFindsOwner(code: int, k: Key)
    ensures OfCode(code) == Some(k) <==> code in Codes(k)
  {
    KeysListsEveryKeyOnce(k);
    var r := OfCode(code);
    if code in Codes(k) {
      assert r.Some?;
      if r.value != k {
        CodesDisjoint(r.value, k);
      }
    }
  }

  /** The name the enum constant is declared with. */
  function EnumName(k: Key): string
  {
    match k
    case LeftKey => "LEFT_KEY"
    case RightKey => "RIGHT_KEY"
    case FlipKey => "FLIP_KEY"
    case DownKey => "DOWN_KEY"
    case DropKey => "DROP_KEY"
    case HoldKey => "HOLD_KEY"
    case EscapeKey => "ESCAPE_KEY"
  }

  /** `toString`: the part of the constant's name before its first underscore, in brackets. */
  function Label(k: Key): (r: string)
    ensures |r| >= 2 && r[0] == '[' && r[|r| - 1] == ']'
    ensures r[1..|r| - 1] == Text.Split(EnumName(k), '_')[0]
  {
    var stem := Text.PrefixBefore(EnumName(k), '_');
    assert ("[" + stem + "]")[1..|stem| + 1] == stem;
    "[" + stem + "]"
  }

  /** The label of a constant named `<stem>_KEY` is `[<stem>]`, its name without the suffix. */
  lemma {:induction false} LabelOfStem(k: Key, stem: string)
    requires '_' !in stem && EnumName(k) == stem + "_KEY"
    ensures Label(k) == "[" + stem + "]"
    ensures |EnumName(k)| > 4 && EnumName(k)[|EnumName(k)| - 4..] == "_KEY"
    ensures EnumName(k)[..|EnumName(k)| - 4] == stem
  {
    assert stem + "_KEY" == stem + ['_'] + "KEY";
    Text.SplitAfterPiece(stem, '_', "KEY");
  }

  /** Every constant is named `<stem>_KEY`, so every label is its name without `_KEY`, in brackets. */
  lemma LabelDropsKeySuffix(k: Key)
    ensures |EnumName(k)| > 4 && EnumName(k)[|EnumName(k)| - 4..] == "_KEY"
    ensures Label(k) == "[" + EnumName(k)[..|EnumName(k)| - 4] + "]"
  {
    match k
    case LeftKey => LabelOfStem(k, "LEFT");
    case RightKey => LabelOfStem(k, "RIGHT");
    case FlipKey => LabelOfStem(k, "FLIP");
    case DownKey => LabelOfStem(k, "DOWN");
    case DropKey => LabelOfStem(k, "DROP");
    case HoldKey => LabelOfStem(k, "HOLD");
    case EscapeKey => LabelOfStem(k, "ESCAPE");
  }

  /** Two of the labels shown on screen. */
  lemma LeftLabel()
    ensures Label(LeftKey) == "[LEFT]"
  {
    LabelOfStem(LeftKey, "LEFT");
  }

  lemma EscapeLabel()
    ensures Label(EscapeKey) == "[ESCAPE]"
  {
    LabelOfStem(EscapeKey, "ESCAPE");
  }

  /** The input events an `InputProcessor` receives. */
  datatype Event =
    | KeyDown(keycode: int)
    | KeyUp(keycode: int)
    | KeyTyped(character: char)
    | TouchDown(x: int, y: int, touchIndex: int, button: int)
    | TouchUp(x: int, y: int, touchIndex: int, button: int)
    | TouchDragged(x: int, y: int, touchIndex: int)
    | MouseMoved(screenX: int, screenY: int)
    | Scrolled(amount: int)

  /** What the handler answers: a key press or release is consumed, every other event passed on. */
  function Handled(e: Event): (r: bool)
    ensures r <==> e.KeyDown? || e.KeyUp?
  {
    match e
    case KeyDown(_) => true
    case KeyUp(_) => true
    case _ => false
  }

  /** `keyDown` quits the application when the pressed code belongs to the escape key. */
  function Exits(e: Event): (r: bool)
    ensures r <==> e.KeyDown? && e.keycode in {29, 131, 68}
  {
    if e.KeyDown? then
      OfCodeFindsOwner(e.keycode, EscapeKey);
      OfCode(e.keycode) == Some(EscapeKey)
    else false
  }
}
