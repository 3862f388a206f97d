/**
 The line editor of the command-line module, against a cursor model.

 The model is a line cut at the cursor, the state of the escape sequence, and the list of all lines
 ever accepted into the history. The editor keeps the line in a buffer of 1024 bytes and the
 history in a ring of 64 lines.
 */
module Editor {
  type Byte = b: nat | b < 256

  // ---------- the cursor model ----------

  datatype View = View(left: seq<Byte>, right: seq<Byte>, esc: nat, histPos: int, accepted: seq<seq<Byte>>)

  // The line a position in the history shows: the ring holds the latest line of each residue.
  function Shown(accepted: seq<seq<Byte>>, p: nat): seq<Byte>
    requires p < |accepted|
  {
    accepted[p + 64 * ((|accepted| - 1 - p) / 64)]
  }

  const LOGIN: seq<Byte> := [108, 111, 103, 105, 110, 32]

  // Which lines go into the history: not empty ones, not logins, not the last one again.
  predicate Remembered(accepted: seq<seq<Byte>>, line: seq<Byte>) {
    && line != [] && !(LOGIN <= line)
    && (accepted == [] || accepted[|accepted| - 1] != line)
  }

  function Insert(v: View, ch: Byte): View {
    if |v.left| + |v.right| >= 1023 then v else v.(left := v.left + [ch])
  }

  function Backspace(v: View): View {
    if v.left == [] then v else v.(left := v.left[..|v.left| - 1])
  }

  function Left(v: View): View {
    if v.left == [] then v else v.(left := v.left[..|v.left| - 1], right := [v.left[|v.left| - 1]] + v.right)
  }

  function Right(v: View): View {
    if v.right == [] then v else v.(left := v.left + [v.right[0]], right := v.right[1..])
  }

  function Home(v: View): View {
    v.(left := [], right := v.left + v.right)
  }

  function End(v: View): View {
    v.(left := v.left + v.right, right := [])
  }

  function DropSpaces(s: seq<Byte>): seq<Byte> {
    if s != [] && s[|s| - 1] == 32 then DropSpaces(s[..|s| - 1]) else s
  }

  // A word ends at a space or a slash.
  function DropWord(s: seq<Byte>): seq<Byte> {
    if s != [] && s[|s| - 1] != 32 && s[|s| - 1] != 47 then DropWord(s[..|s| - 1]) else s
  }

  predicate ValidPos(histPos: int, accepted: seq<seq<Byte>>) {
    -1 <= histPos && (histPos < |accepted| || (histPos == 0 && accepted == []))
  }

  function Recall(v: View, p: nat): View
    requires p < |v.accepted|
  {
    v.(histPos := p, left := Shown(v.accepted, p), right := [])
  }

  function Up(v: View): View
    requires ValidPos(v.histPos, v.accepted)
  {
    if v.accepted == [] then v
    else if v.histPos < 0 then Recall(v, |v.accepted| - 1)
    else if v.histPos > 0 then Recall(v, v.histPos - 1)
    else v
  }

  function Down(v: View): View
    requires ValidPos(v.histPos, v.accepted)
  {
    if v.histPos < 0 then v
    else if v.histPos + 1 >= |v.accepted| then v.(histPos := -1, left := [], right := [])
    else Recall(v, v.histPos + 1)
  }

  function Submit(v: View): View {
    var line := v.left + v.right;
    v.(left := [], right := [], histPos := -1,
       accepted := if Remembered(v.accepted, line) then v.accepted + [line] else v.accepted)
  }

  function InsertAll(v: View, typed: seq<Byte>): (r: View)
    ensures r.histPos == v.histPos && r.accepted == v.accepted
  {
    if typed == [] then v else Insert(InsertAll(v, typed[..|typed| - 1]), typed[|typed| - 1])
  }

  function Arrow(v: View, b: Byte): View
    requires ValidPos(v.histPos, v.accepted)
  {
    match b
    case 65 => Up(v)
    case 66 => Down(v)
    case 67 => Right(v)
    case 68 => Left(v)
    case 72 => Home(v)
    case 70 => End(v)
    case _ => v
  }

  // One byte. `typed` is what the completion of a tab types.
  function Step(v: View, b: Byte, typed: seq<Byte>): (r: View)
    requires ValidPos(v.histPos, v.accepted)
    ensures ValidPos(r.histPos, r.accepted)
  {
    if v.esc == 1 then v.(esc := if b == 91 then 2 else 0)
    else if v.esc == 2 then Arrow(v.(esc := 0), b)
    else
      match b
      case 27 => v.(esc := 1)
      case 9 => InsertAll(v, typed)
      case 13 => Submit(v)
      case 10 => Submit(v)
      case 127 => Backspace(v)
      case 8 => Backspace(v)
      case 1 => Home(v)
      case 5 => End(v)
      case 21 => v.(left := [], right := [])
      case 23 => v.(left := DropWord(DropSpaces(v.left)))
      case 11 => v.(right := [])
      case 12 => v
      case _ => if 32 <= b < 127 then Insert(v, b) else v
  }

  datatype Key = Key(b: Byte, typed: seq<Byte>)

  function Steps(v: View, keys: seq<Key>): (r: View)
    requires ValidPos(v.histPos, v.accepted)
    ensures ValidPos(r.histPos, r.accepted)
  {
    if keys == [] then v else Step(Steps(v, keys[..|keys| - 1]), keys[|keys| - 1].b, keys[|keys| - 1].typed)
  }

  // ---------- what the model says ----------

  // The keys of a byte string.
  function Keys(bytes: seq<Byte>): (keys: seq<Key>)
    ensures |keys| == |bytes| && forall i | 0 <= i < |keys| :: keys[i] == Key(bytes[i], [])
  {
    seq(|bytes|, i requires 0 <= i < |bytes| => Key(bytes[i], []))
  }

  function Press(v: View, bytes: seq<Byte>): (r: View)
    requires ValidPos(v.histPos, v.accepted)
    ensures ValidPos(r.histPos, r.accepted)
  {
    Steps(v, Keys(bytes))
  }

  function Repeat(bytes: seq<Byte>, k: nat): seq<Byte> {
    if k == 0 then [] else Repeat(bytes, k - 1) + bytes
  }

  lemma LastSteps(v: View, keys: seq<Key>, v': View, keys': seq<Key>, key: Key)
    requires ValidPos(v.histPos, v.accepted) && ValidPos(v'.histPos, v'.accepted) && Steps(v, keys) == Steps(v', keys')
    ensures Steps(v, keys + [key]) == Steps(v', keys' + [key])
  {
    assert (keys + [key])[..|keys|] == keys && (keys' + [key])[..|keys'|] == keys';
  }

  lemma {:induction false} StepsMore(v: View, keys: seq<Key>, more: seq<Key>)
    requires ValidPos(v.histPos, v.accepted)
    ensures Steps(v, keys + more) == Steps(Steps(v, keys), more)
  {
    if more == [] {
      assert keys + more == keys;
    } else {
      var n := |more| - 1;
      var start, key := more[..n], more[n];
      StepsMore(v, keys, start);
      LastSteps(v, keys + start, Steps(v, keys), start, key);
      assert start + [key] == more && (keys + start) + [key] == keys + more;
    }
  }

  lemma PressMore(v: View, bytes: seq<Byte>, more: seq<Byte>)
    requires ValidPos(v.histPos, v.accepted)
    ensures Press(v, bytes + more) == Press(Press(v, bytes), more)
  {
    assert Keys(bytes + more) == Keys(bytes) + Keys(more);
    StepsMore(v, Keys(bytes), Keys(more));
  }

  lemma PressOne(v: View, b: Byte)
    requires ValidPos(v.histPos, v.accepted)
    ensures Press(v, [b]) == Step(v, b, [])
  {
    assert Keys([b])[..0] == [];
    assert Steps(v, []) == v;
  }

  // ESC, [ and a letter.
  lemma PressArrow(v: View, b: Byte)
    requires v.esc == 0 && ValidPos(v.histPos, v.accepted)
    ensures Press(v, [27, 91, b]) == Arrow(v, b)
  {
    PressOne(v, 27);
    PressOne(v.(esc := 1), 91);
    PressMore(v, [27], [91]);
    PressOne(v.(esc := 2), b);
    PressMore(v, [27] + [91], [b]);
    assert [27] + [91] + [b] == [27, 91, b];
    assert v.(esc := 2).(esc := 0) == v;
  }

  const UP: seq<Byte> := [27, 91, 65]
  const DOWN: seq<Byte> := [27, 91, 66]

  lemma {:induction false} UpsWalk(v: View, k: nat)
    requires v.esc == 0 && v.histPos == -1 && 1 <= k <= |v.accepted|
    ensures Press(v, Repeat(UP, k)) == Recall(v, |v.accepted| - k)
  {
    if k == 1 {
      assert Repeat(UP, 0) + UP == UP;
      PressArrow(v, 65);
    } else {
      UpsWalk(v, k - 1);
      PressMore(v, Repeat(UP, k - 1), UP);
      PressArrow(Recall(v, |v.accepted| - (k - 1)), 65);
    }
  }

  // Of the first 64 presses of Up on a fresh line, press `k` shows the line accepted `k`th to last.
  lemma NewestFirst(v: View, k: nat)
    requires v.esc == 0 && v.histPos == -1 && 1 <= k <= |v.accepted| && k <= 64
    ensures var r := Press(v, Repeat(UP, k)); r.left == v.accepted[|v.accepted| - k] && r.right == []
  {
    UpsWalk(v, k);
  }

  // As many presses of Down lead back to the empty fresh line.
  lemma {:induction false} DownsWalk(v: View, k: nat)
    requires v.esc == 0 && 0 <= v.histPos && v.histPos + k == |v.accepted| && k > 0
    ensures Press(v, Repeat(DOWN, k)) == v.(histPos := -1, left := [], right := [])
    decreases k
  {
    var v' := Down(v);
    PressArrow(v, 66);
    RepeatFirst(DOWN, k);
    PressMore(v, DOWN, Repeat(DOWN, k - 1));
    if k == 1 {
      assert Keys([]) == [] && Press(v', []) == v';
    } else {
      DownsWalk(v', k - 1);
    }
  }

  lemma {:induction false} RepeatFirst(bytes: seq<Byte>, k: nat)
    requires k > 0
    ensures Repeat(bytes, k) == bytes + Repeat(bytes, k - 1)
  {
    if k == 1 {
      assert [] + bytes == bytes + [];
    } else {
      RepeatFirst(bytes, k - 1);
      assert bytes + Repeat(bytes, k - 2) + bytes == bytes + (Repeat(bytes, k - 2) + bytes);
    }
  }

  lemma UpsAndDowns(v: View, k: nat)
    requires v.esc == 0 && v.histPos == -1 && 1 <= k <= |v.accepted|
    ensures Press(v, Repeat(UP, k) + Repeat(DOWN, k)) == v.(left := [], right := [])
  {
    UpsWalk(v, k);
    PressMore(v, Repeat(UP, k), Repeat(DOWN, k));
    DownsWalk(Press(v, Repeat(UP, k)), k);
  }

  predicate Printable(text: seq<Byte>) {
    forall i | 0 <= i < |text| :: 32 <= text[i] < 127
  }

  // Printable bytes go in at the cursor.
  lemma {:induction false} Typing(v: View, text: seq<Byte>)
    requires v.esc == 0 && ValidPos(v.histPos, v.accepted) && Printable(text)
      && |v.left| + |v.right| + |text| <= 1023
    ensures Press(v, text) == v.(left := v.left + text)
  {
    if text == [] {
      assert v.left + text == v.left;
    } else {
      var n := |text| - 1;
      Typing(v, text[..n]);
      PressMore(v, text[..n], [text[n]]);
      PressOne(Press(v, text[..n]), text[n]);
      assert text == text[..n] + [text[n]];
    }
  }

  lemma {:induction false} Completing(v: View, typed: seq<Byte>, n: nat)
    requires |v.left| + |v.right| <= 1023
    requires n == if |typed| <= 1023 - |v.left + v.right| then |typed| else 1023 - |v.left + v.right|
    ensures InsertAll(v, typed) == v.(left := v.left + typed[..n])
  {
    if typed == [] {
      assert v.left + typed == v.left;
    } else {
      var last := |typed| - 1;
      Completing(v, typed[..last], if n <= last then n else last);
      assert typed[..last][..if n <= last then n else last] == typed[..if n <= last then n else last];
      assert n == |typed| ==> typed[..n] == typed[..last] + [typed[last]];
    }
  }

  // What a tab completes goes in at the cursor as far as there is room.
  lemma TabKey(v: View, typed: seq<Byte>, n: nat)
    requires v.esc == 0 && ValidPos(v.histPos, v.accepted) && |v.left| + |v.right| <= 1023
    requires n == if |typed| <= 1023 - |v.left + v.right| then |typed| else 1023 - |v.left + v.right|
    ensures Step(v, 9, typed) == v.(left := v.left + typed[..n])
  {
    Completing(v, typed, n);
  }

  lemma SubmittedIsShown(v: View)
    requires ValidPos(v.histPos, v.accepted) && v.left != [] && v.right == [] && !(LOGIN <= v.left)
    ensures Up(Submit(v)).left == v.left
  {
    assert v.left + v.right == v.left;
  }

  lemma EnterAndUp(v: View)
    requires v.esc == 0 && ValidPos(v.histPos, v.accepted) && v.left != [] && v.right == [] && !(LOGIN <= v.left)
    ensures Press(v, [13] + UP).left == v.left
  {
    PressOne(v, 13);
    PressMore(v, [13], UP);
    PressArrow(Submit(v), 65);
    SubmittedIsShown(v);
  }

  // A line typed and entered is what Up shows next, unless it is a login.
  lemma EnteredIsShown(v: View, text: seq<Byte>)
    requires v.esc == 0 && ValidPos(v.histPos, v.accepted) && v.left == v.right == [] && Printable(text)
      && 0 < |text| <= 1023 && !(LOGIN <= text)
    ensures Press(v, text + [13] + UP).left == text
  {
    var typed := v.(left := text);
    Typing(v, text);
    assert v.left + text == text;
    EnterAndUp(typed);
    PressMore(v, text, [13] + UP);
    assert text + ([13] + UP) == text + [13] + UP;
  }

  // The cursor keys leave the text alone: one place left or right, to the start, to the end.
  lemma CursorKeys(v: View, b: Byte)
    requires v.esc == 0 && ValidPos(v.histPos, v.accepted) && b in {67, 68, 70, 72}
    ensures var r := Press(v, [27, 91, b]);
      && r.left + r.right == v.left + v.right && r == v.(left := r.left, right := r.right)
      && |r.left| == (match b
                      case 67 => if v.right == [] then |v.left| else |v.left| + 1
                      case 68 => if v.left == [] then 0 else |v.left| - 1
                      case 70 => |v.left + v.right|
                      case 72 => 0)
  {
    PressArrow(v, b);
    if b == 68 && v.left != [] {
      var n := |v.left| - 1;
      assert v.left[..n] + ([v.left[n]] + v.right) == v.left + v.right;
    } else if b == 67 && v.right != [] {
      assert v.left + [v.right[0]] + v.right[1..] == v.left + v.right;
    }
  }

  // Delete and backspace are the same key, as are return and newline.
  lemma SameKeys(v: View)
    requires v.esc == 0 && ValidPos(v.histPos, v.accepted)
    ensures Press(v, [8]) == Press(v, [127]) && Press(v, [10]) == Press(v, [13])
  {
    PressOne(v, 8);
    PressOne(v, 127);
    PressOne(v, 10);
    PressOne(v, 13);
  }

  // Ctrl-A and Ctrl-E go to the start and the end, Ctrl-U and Ctrl-K cut the line and the rest of it.
  lemma ControlKeys(v: View)
    requires v.esc == 0 && ValidPos(v.histPos, v.accepted)
    ensures Press(v, [1]) == Press(v, [27, 91, 72]) && Press(v, [5]) == Press(v, [27, 91, 70])
    ensures Press(v, [21]) == v.(left := [], right := []) && Press(v, [11]) == v.(right := [])
  {
    PressOne(v, 1);
    PressOne(v, 5);
    PressOne(v, 21);
    PressOne(v, 11);
    PressArrow(v, 72);
    PressArrow(v, 70);
  }

  // Ctrl-W cuts spaces before the cursor and before them a word, back to a space, a slash or the start.
  lemma CutWord(v: View) returns (m: nat)
    requires v.esc == 0 && ValidPos(v.histPos, v.accepted)
    ensures var r := Press(v, [23]);
      && r == v.(left := r.left) && r.left <= v.left && |r.left| <= m <= |v.left|
      && (forall i | m <= i < |v.left| :: v.left[i] == 32) && (m > 0 ==> v.left[m - 1] != 32)
      && (forall i | |r.left| <= i < m :: v.left[i] !in {32, 47}) && (r.left != [] ==> r.left[|r.left| - 1] in {32, 47})
  {
    PressOne(v, 23);
    var rest := DropSpaces(v.left);
    SpacesDropped(v.left);
    WordDropped(rest);
    m := |rest|;
  }

  // No line in the history is empty, a login or the line before it again.
  ghost predicate Clean(accepted: seq<seq<Byte>>) {
    && (forall i | 0 <= i < |accepted| :: accepted[i] != [] && !(LOGIN <= accepted[i]))
    && (forall i | 0 < i < |accepted| :: accepted[i] != accepted[i - 1])
  }

  lemma {:induction false} HistoryIsClean(v: View, keys: seq<Key>)
    requires ValidPos(v.histPos, v.accepted) && Clean(v.accepted)
    ensures Clean(Steps(v, keys).accepted) && v.accepted <= Steps(v, keys).accepted
  {
    if keys != [] {
      HistoryIsClean(v, keys[..|keys| - 1]);
    }
  }

  // The ring is exact for the last 64 lines, and beyond them shows a later line.
  lemma ShownExactly(accepted: seq<seq<Byte>>, p: nat)
    requires p < |accepted|
    ensures |accepted| - p <= 64 ==> Shown(accepted, p) == accepted[p]
    ensures |accepted| - p > 64 ==>
              exists j :: p < j < |accepted| && j % 64 == p % 64 && Shown(accepted, p) == accepted[j]
  {
    var j := p + 64 * ((|accepted| - 1 - p) / 64);
    assert accepted[j] == Shown(accepted, p);
  }

  lemma SixtyFifthUpIsTheFirst(v: View)
    requires v.esc == 0 && v.histPos == -1 && |v.accepted| >= 65
    ensures Press(v, Repeat(UP, 65)).left == Press(v, Repeat(UP, 1)).left
  {
    UpsWalk(v, 65);
    UpsWalk(v, 1);
  }

  lemma {:induction false} SpacesDropped(s: seq<Byte>)
    ensures DropSpaces(s) <= s && (forall i | |DropSpaces(s)| <= i < |s| :: s[i] == 32)
    ensures DropSpaces(s) == [] || DropSpaces(s)[|DropSpaces(s)| - 1] != 32
  {
    if s != [] && s[|s| - 1] == 32 {
      SpacesDropped(s[..|s| - 1]);
    }
  }

  lemma {:induction false} WordDropped(s: seq<Byte>)
    ensures DropWord(s) <= s && (forall i | |DropWord(s)| <= i < |s| :: s[i] != 32 && s[i] != 47)
    ensures DropWord(s) == [] || DropWord(s)[|DropWord(s)| - 1] in {32, 47}
  {
    if s != [] && s[|s| - 1] != 32 && s[|s| - 1] != 47 {
      WordDropped(s[..|s| - 1]);
    }
  }

  // Outside escape sequences, a printable byte and backspace cancel if there is room, and so do
  // the arrows if the cursor can move.
  lemma InsertBackspace(v: View, ch: Byte)
    requires v.esc == 0 && 32 <= ch < 127 && |v.left| + |v.right| < 1023 && ValidPos(v.histPos, v.accepted)
    ensures Step(Step(v, ch, []), 127, []) == v
  {
    assert (v.left + [ch])[..|v.left|] == v.left;
  }

  lemma LeftRight(v: View)
    ensures v.left != [] ==> Right(Left(v)) == v
    ensures v.right != [] ==> Left(Right(v)) == v
  {
    if v.left != [] {
      var n := |v.left| - 1;
      assert v.left[..n] + [v.left[n]] == v.left && ([v.left[n]] + v.right)[1..] == v.right;
    }
    if v.right != [] {
      assert (v.left + [v.right[0]])[..|v.left|] == v.left && [v.right[0]] + v.right[1..] == v.right;
    }
  }

  // ---------- the ring ----------

  // What fits into a line buffer as a string.
  predicate IsString(s: seq<Byte>) {
    |s| < 1024 && forall i | 0 <= i < |s| :: s[i] != 0
  }

  ghost predicate Strings(accepted: seq<seq<Byte>>) {
    forall a | a in accepted :: IsString(a)
  }

  ghost predicate Ring(history: seq<seq<Byte>>, accepted: seq<seq<Byte>>) {
    |history| == 64 && forall i | 0 <= i < 64 && i < |accepted| :: history[i] == Shown(accepted, i)
  }

  lemma RingShows(history: seq<seq<Byte>>, accepted: seq<seq<Byte>>, p: nat)
    requires Ring(history, accepted) && p < |accepted|
    ensures history[p % 64] == Shown(accepted, p)
  {
    var q, i := p / 64, p % 64;
    assert p == 64 * q + i;
    assert (|accepted| - 1 - i) / 64 == q + (|accepted| - 1 - p) / 64;
  }

  lemma RingAdds(history: seq<seq<Byte>>, accepted: seq<seq<Byte>>, line: seq<Byte>)
    requires Ring(history, accepted)
    ensures Ring(history[|accepted| % 64 := line], accepted + [line])
  {
    var n := |accepted|;
    var history' := history[n % 64 := line];
    forall i | 0 <= i < 64 && i < n + 1 ensures history'[i] == Shown(accepted + [line], i) {
      if i == n % 64 {
        assert i + 64 * ((n - i) / 64) == n;
      } else {
        assert (n - i) / 64 == (n - 1 - i) / 64;
      }
    }
  }

  // ---------- the editor ----------

  class LineEditor {
    const line: array<Byte>
    var pos: nat
    var len: nat
    var history: seq<seq<Byte>>
    var histCount: nat
    var histPos: int
    var escState: nat

    // All lines accepted into the history.
    ghost var accepted: seq<seq<Byte>>

    ghost predicate Valid()
      reads this, line
    {
      && line.Length == 1024 && pos <= len < 1024 && line[len] == 0 && (forall i | 0 <= i < len :: line[i] != 0)
      && escState <= 2 && histCount == |accepted| && ValidPos(histPos, accepted)
      && Ring(history, accepted) && Strings(accepted)
    }

    ghost function Model(): View
      requires Valid()
      reads this, line
    {
      View(line[..pos], line[pos..len], escState, histPos, accepted)
    }

    // A zeroed editor.
    constructor ()
      ensures Valid() && Model() == View([], [], 0, 0, []) && fresh(line)
    {
      line := new Byte[1024](_ => 0);
      pos, len, histCount, histPos, escState := 0, 0, 0, 0, 0;
      history := seq(64, _ => []);
      accepted := [];
    }

    // editor_history_add
    method HistoryAdd(s: seq<Byte>)
      requires Valid() && IsString(s)
      modifies this`history, this`histCount, this`accepted
      ensures Valid() && accepted == old(if Remembered(accepted, s) then accepted + [s] else accepted)
    {
      if s == [] { return; }
      if LOGIN <= s { return; }
      if histCount > 0 {
        RingShows(history, accepted, histCount - 1);
        if history[(histCount - 1) % 64] == s { return; }
      }
      RingAdds(history, accepted, s);
      history := history[histCount % 64 := s];
      histCount := histCount + 1;
      accepted := accepted + [s];
    }

    // Put a string and its terminator into the buffer, with the cursor at its end.
    method SetLine(s: seq<Byte>)
      requires Valid() && IsString(s)
      modifies this`pos, this`len, line
      ensures Valid() && Model() == old(Model()).(left := s, right := [])
    {
      forall i | 0 <= i < |s| { line[i] := s[i]; }
      line[|s|] := 0;
      len := |s|;
      pos := len;
    }

    // Recall what the ring holds for position `p`.
    method Show(p: nat)
      requires Valid() && p < histCount
      modifies this`pos, this`len, this`histPos, line
      ensures Valid() && Model() == Recall(old(Model()), p)
    {
      RingShows(history, accepted, p);
      assert accepted[p + 64 * ((|accepted| - 1 - p) / 64)] in accepted;
      histPos := p;
      SetLine(history[p % 64]);
    }

    // editor_history_up
    method HistoryUp()
      requires Valid()
      modifies this`pos, this`len, this`histPos, line
      ensures Valid() && Model() == Up(old(Model()))
    {
      if histCount == 0 { return; }
      if histPos < 0 {
        Show(histCount - 1);
      } else if histPos > 0 {
        Show(histPos - 1);
      }
    }

    // editor_history_down
    method HistoryDown()
      requires Valid()
      modifies this`pos, this`len, this`histPos, line
      ensures Valid() && Model() == Down(old(Model()))
    {
      if histPos < 0 { return; }
      if histPos + 1 >= histCount {
        histPos := -1;
        line[0] := 0;
        len, pos := 0, 0;
      } else {
        Show(histPos + 1);
      }
    }

    // editor_insert_char
    method InsertChar(ch: Byte)
      requires Valid() && ch != 0
      modifies this`pos, this`len, line
      ensures Valid() && Model() == Insert(old(Model()), ch)
    {
      if len >= 1023 { return; }
      forall i | pos <= i < len { line[i + 1] := line[i]; }
      line[pos] := ch;
      pos := pos + 1;
      len := len + 1;
      line[len] := 0;
      assert line[..pos] == old(line[..pos]) + [ch];
      assert line[pos..len] == old(line[pos..len]);
    }

    // editor_backspace
    method DeleteBack()
      requires Valid()
      modifies this`pos, this`len, line
      ensures Valid() && Model() == Backspace(old(Model()))
    {
      if pos <= 0 { return; }
      forall i | pos <= i < len { line[i - 1] := line[i]; }
      pos := pos - 1;
      len := len - 1;
      line[len] := 0;
    }

    // The two loops of Ctrl-W.
    method WordStart() returns (p: nat)
      requires Valid()
      ensures p <= pos && line[..p] == DropWord(DropSpaces(line[..pos]))
    {
      p := pos;
      while p > 0 && line[p - 1] == 32
        invariant p <= pos && DropSpaces(line[..p]) == DropSpaces(line[..pos])
      {
        assert line[..p][..p - 1] == line[..p - 1];
        p := p - 1;
      }
      ghost var rest := line[..p];
      while p > 0 && line[p - 1] != 32 && line[p - 1] != 47
        invariant p <= pos && DropWord(line[..p]) == DropWord(rest)
      {
        assert line[..p][..p - 1] == line[..p - 1];
        p := p - 1;
      }
    }

    // Move what is right of the cursor, with the terminator, back to `p`.
    method CloseGap(p: nat)
      requires Valid() && p <= pos
      modifies this`pos, this`len, line
      ensures Valid() && Model() == old(Model()).(left := old(line[..p]))
    {
      var gap := pos - p;
      forall i | p <= i <= len - gap { line[i] := line[i + gap]; }
      len := len - gap;
      pos := p;
      assert line[p..len] == old(line[pos..len]) && line[..p] == old(line[..p]);
    }

    // Ctrl-W
    method KillWord()
      requires Valid()
      modifies this`pos, this`len, line
      ensures Valid() && Model() == old(Model()).(left := DropWord(DropSpaces(old(Model()).left)))
    {
      if pos <= 0 { return; }
      var p := WordStart();
      CloseGap(p);
    }

    // Enter. What the command does is left open; it does not touch the editor.
    method Enter()
      requires Valid()
      modifies this, line
      ensures Valid() && Model() == Submit(old(Model()))
    {
      line[len] := 0;
      assert line[..len] == line[..pos] + line[pos..len];
      HistoryAdd(line[..len]);
      line[0] := 0;
      pos, len := 0, 0;
      histPos := -1;
    }

    // Tab, with the completion given.
    method Complete(typed: seq<Byte>)
      requires Valid() && 0 !in typed
      modifies this`pos, this`len, line
      ensures Valid() && Model() == InsertAll(old(Model()), typed)
    {
      for i := 0 to |typed|
        invariant Valid() && Model() == InsertAll(old(Model()), typed[..i])
      {
        assert typed[..i + 1][..i] == typed[..i];
        assert typed[i] in typed;
        InsertChar(typed[i]);
      }
      assert typed[..|typed|] == typed;
    }

    // editor_left
    method CursorLeft()
      requires Valid()
      modifies this`pos
      ensures Valid() && Model() == Left(old(Model()))
    {
      if pos > 0 {
        pos := pos - 1;
        assert line[..pos + 1][..pos] == line[..pos];
      }
    }

    // editor_right
    method CursorRight()
      requires Valid()
      modifies this`pos
      ensures Valid() && Model() == Right(old(Model()))
    {
      if pos < len {
        assert line[pos..len][1..] == line[pos + 1..len];
        pos := pos + 1;
      }
    }

    method CursorHome()
      requires Valid()
      modifies this`pos
      ensures Valid() && Model() == Home(old(Model()))
    {
      pos := 0;
    }

    method CursorEnd()
      requires Valid()
      modifies this`pos
      ensures Valid() && Model() == End(old(Model()))
    {
      pos := len;
    }

    method Escape(b: Byte)
      requires Valid() && escState == 2
      modifies this, line
      ensures Valid() && Model() == Arrow(old(Model()).(esc := 0), b)
    {
      escState := 0;
      match b
      case 65 => HistoryUp();
      case 66 => HistoryDown();
      case 67 => CursorRight();
      case 68 => CursorLeft();
      case 72 => CursorHome();
      case 70 => CursorEnd();
      case _ =>
    }

    // editor_feed in line-editing mode.
    method Feed(b: Byte, typed: seq<Byte>)
      requires Valid() && 0 !in typed
      modifies this, line
      ensures Valid() && Model() == Step(old(Model()), b, typed)
    {
      if escState == 1 {
        escState := if b == 91 then 2 else 0;
        return;
      }
      if escState == 2 {
        Escape(b);
        return;
      }
      match b
      case 27 => escState := 1;
      case 9 => Complete(typed);
      case 13 => Enter();
      case 10 => Enter();
      case 127 => DeleteBack();
      case 8 => DeleteBack();
      case 1 => CursorHome();
      case 5 => CursorEnd();
      case 21 => line[0] := 0; pos, len := 0, 0;
      case 23 => KillWord();
      case 11 => line[pos] := 0; len := pos;
      case 12 =>
      case _ => if 32 <= b < 127 { InsertChar(b); }
    }

    // Any byte stream.
    method FeedAll(keys: seq<Key>)
      requires Valid() && forall k | k in keys :: 0 !in k.typed
      modifies this, line
      ensures Valid() && Model() == Steps(old(Model()), keys)
    {
      for i := 0 to |keys|
        invariant Valid() && Model() == Steps(old(Model()), keys[..i])
      {
        assert keys[..i + 1][..i] == keys[..i];
        Feed(keys[i].b, keys[i].typed);
      }
      assert keys[..|keys|] == keys;
    }
  }
}
