/** The single-line text box widget: its geometry, computed from the font's
    line height, and its key handling. */
module TextboxWidget {
  import K = InputEvents

  /** The keys the text box refuses: the shift, meta, alt, control and super
      keys, escape, and the four arrows. */
  const IgnoredKeys: set<int> :=
    {K.KeyLShift, K.KeyRShift, K.KeyRMeta, K.KeyLMeta, K.KeyRAlt, K.KeyLAlt,
     K.KeyRCtrl, K.KeyLCtrl, K.KeyRSuper, K.KeyLSuper,
     K.KeyEscape,
     K.KeyArrowLeft, K.KeyArrowRight, K.KeyArrowUp, K.KeyArrowDown}

  /** C++ integer division, which truncates toward zero. */
  function CDiv(a: int, b: int): (q: int)
    requires b > 0
    ensures a >= 0 ==> q * b <= a < q * b + b
    ensures a < 0 ==> q * b - b < a <= q * b
  {
    if a >= 0 then a / b else -((-a) / b)
  }

  /** The height of one row: the line height rounded up to a multiple of 10. */
  function RowHeight(lineHeight: int): (r: int)
    ensures lineHeight >= 0 ==> r % 10 == 0 && lineHeight <= r < lineHeight + 10
  {
    CDiv(lineHeight + 9, 10) * 10
  }

  /** No smaller multiple of 10 holds the line. */
  lemma RowHeightLeast(lineHeight: int, m: int)
    requires lineHeight >= 0 && m % 10 == 0 && m >= lineHeight
    ensures RowHeight(lineHeight) <= m
  {
  }

  /** Truncating division matters for a negative line height: -15 rounds to 0, not -10. */
  lemma RowHeightNegative()
    ensures RowHeight(-15) == 0 && RowHeight(-25) == -10
  {
  }

  /** The padding that centres the text vertically in its row. */
  function RowPad(lineHeight: int): (r: int)
    ensures lineHeight >= 0 ==> 0 <= r <= 4
    ensures lineHeight >= 0 ==> lineHeight + 2 * r <= RowHeight(lineHeight) <= lineHeight + 2 * r + 1
  {
    CDiv(RowHeight(lineHeight) - lineHeight, 2)
  }

  /** The character (char)key: the low byte of the key code. */
  function KeyChar(key: int): char
  {
    (key % 256) as char
  }

  /** The characters a stream's >> skips as whitespace in the C locale. */
  predicate IsSpace(c: char)
  {
    c == ' ' || '\t' <= c <= '\r'
  }

  /** The text after an accepted key, given the key's name. */
  function Edited(text: string, key: int, keyname: string): (r: string)
    ensures keyname == "backspace" ==> (text == [] ==> r == []) && (text != [] ==> r + [text[|text| - 1]] == text)
    ensures keyname != "backspace" ==> text <= r && |r| <= |text| + 1
    ensures keyname == "space" ==> r == text + " "
    ensures keyname != "backspace" && keyname != "space" ==> (r == text + [KeyChar(key)] <==> !IsSpace(KeyChar(key)))
    ensures keyname != "backspace" && keyname != "space" && IsSpace(KeyChar(key)) ==> r == text
  {
    if keyname == "backspace" then (if text == [] then [] else text[..|text| - 1])
    else if keyname == "space" then text + " "
    else if IsSpace(KeyChar(key)) then text
    else text + [KeyChar(key)]
  }

  /** Typing a printable character and then backspace restores the text. */
  lemma BackspaceUndoesAppend(text: string, key: int, keyname: string, back: int)
    requires keyname != "backspace" && keyname != "space" && !IsSpace(KeyChar(key))
    ensures Edited(Edited(text, key, keyname), back, "backspace") == text
  {
    assert Edited(text, key, keyname) == text + [KeyChar(key)];
    assert (text + [KeyChar(key)])[..|text|] == text;
  }

  class Textbox {
    var x: int
    var y: int
    var w: int
    var h: int
    var rowPad: int
    var name: string
    var text: string

    /** Lays the box out for `rows` rows of the font's line height. */
    constructor (x: int, y: int, w: int, rows: int, text: string, caption: string, lineHeight: int)
      ensures this.x == x && this.y == y && this.w == w
      ensures this.h == rows * RowHeight(lineHeight) && rowPad == RowPad(lineHeight)
      ensures name == caption && this.text == text
    {
      var rowHeight := CDiv(lineHeight + 9, 10) * 10;
      rowPad := CDiv(rowHeight - lineHeight, 2);
      this.x := x;
      this.y := y;
      this.w := w;
      this.h := rows * rowHeight;
      name := caption;
      this.text := text;
    }

    /** Handles a key press: refuses modifiers, escape and arrows; otherwise
        edits the text and reports the key as handled. */
    method KeyPress(key: int, keyname: string) returns (handled: bool)
      modifies this`text
      ensures handled <==> key !in IgnoredKeys
      ensures text == if handled then Edited(old(text), key, keyname) else old(text)
    {
      if key in IgnoredKeys {
        return false;
      }
      var c := KeyChar(key);
      var keyS := "";
      if !IsSpace(c) {
        keyS := [c];
      }
      if keyname == "backspace" {
        var len := |text| - 1;
        if len < 0 {
          len := 0;
        }
        text := text[..len];
      } else if keyname == "space" {
        text := text + " ";
      } else {
        text := text + keyS;
      }
      return true;
    }
  }
}
