/**
 * Key decoding of the modular game: one keypress is read from the pending
 * input bytes, and the escape sequences of the arrow keys are mapped to the
 * letter keys that play the same move. Reading the terminal is replaced by
 * the sequence of bytes waiting to be read.
 */
module Input {

  const ESC: char := 27 as char
  /** The "no key" value. */
  const NO_KEY: char := 0 as char

  /** The decoded key and how many pending bytes were read for it. */
  datatype Decoded = Decoded(key: char, consumed: nat)

  /** The letter an arrow key's final byte stands for: up rotates, down soft-drops, right and left move. */
  function ArrowKey(final: char): char
  {
    match final
    case 'A' => 'w'
    case 'B' => 's'
    case 'C' => 'd'
    case 'D' => 'a'
    case _ => ESC
  }

  /**
   * Reads one key: nothing pending gives no key; a byte other than ESC is the
   * key; ESC reads up to two more bytes and becomes an arrow's letter for
   * ESC '[' A..D and ESC otherwise (also when the sequence is cut short).
   */
  function DecodeKey(pending: seq<char>): (d: Decoded)
    ensures d.consumed <= |pending| && d.consumed <= 3
    ensures d.consumed == 0 <==> pending == []
    ensures pending != [] && pending[0] != ESC ==> d == Decoded(pending[0], 1)
    ensures pending != [] && pending[0] == ESC ==> d.key in {ESC, 'w', 's', 'd', 'a'}
    ensures d.key != ESC && pending != [] && pending[0] == ESC ==> d.consumed == 3 && pending[1] == '['
  {
    if |pending| == 0 then Decoded(NO_KEY, 0)
    else if pending[0] != ESC then Decoded(pending[0], 1)
    else if |pending| == 1 then Decoded(ESC, 1)
    else if |pending| == 2 then Decoded(ESC, 2)
    else if pending[1] == '[' then Decoded(ArrowKey(pending[2]), 3)
    else Decoded(ESC, 3)
  }

  /** The bytes an arrow key sends for the given letter key, if it has one. */
  function ArrowBytes(key: char): (bytes: seq<char>)
    requires key in {'w', 's', 'd', 'a'}
  {
    [ESC, '[', if key == 'w' then 'A' else if key == 's' then 'B' else if key == 'd' then 'C' else 'D']
  }

  // ----- lemmas -----

  /** Decoding an arrow key's bytes gives back its letter, whatever is pending after them. */
  lemma ArrowRoundTrip(key: char, rest: seq<char>)
    requires key in {'w', 's', 'd', 'a'}
    ensures DecodeKey(ArrowBytes(key) + rest) == Decoded(key, 3)
  {
  }

  /** An escape sequence other than the four arrows decodes to ESC itself. */
  lemma OtherEscapesDecodeToEsc(pending: seq<char>)
    requires |pending| >= 3 && pending[0] == ESC
    requires pending[1] != '[' || pending[2] !in {'A', 'B', 'C', 'D'}
    ensures DecodeKey(pending).key == ESC
  {
  }

  /** Reading keys one after another consumes every pending byte: decoding always makes progress. */
  function DecodeAll(pending: seq<char>): (keys: seq<char>)
    ensures |keys| <= |pending|
    ensures pending != [] ==> |keys| >= 1 && keys[0] == DecodeKey(pending).key
    decreases |pending|
  {
    if pending == [] then []
    else
      var d := DecodeKey(pending);
      [d.key] + DecodeAll(pending[d.consumed..])
  }

  /** Input without escape bytes decodes byte for byte. */
  lemma {:induction false} PlainBytesDecodeAsThemselves(pending: seq<char>)
    requires ESC !in pending
    ensures DecodeAll(pending) == pending
    decreases |pending|
  {
    if pending != [] {
      assert ESC !in pending[1..] by {
        assert forall k | 0 <= k < |pending[1..]| :: pending[1..][k] == pending[k + 1];
      }
      PlainBytesDecodeAsThemselves(pending[1..]);
    }
  }
}
