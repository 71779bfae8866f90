/** The scripts both exporters keep: a piece survives a trim when every character of it is in one of these ranges. */
module Scripts {
  const SPACE_MARK: char := '\U{2581}'

  const KEEP_RANGES: seq<(int, int)> := [
    (0x0021, 0x007E), (0x00A1, 0x024F), (0x0300, 0x036F), (0x0600, 0x06FF), (0x0750, 0x077F),
    (0x08A0, 0x08FF), (0x200C, 0x200F), (0x2010, 0x205E), (0x20A0, 0x20BF), (0x2190, 0x21FF),
    (0x2600, 0x27BF), (0xFB50, 0xFDFF), (0xFE00, 0xFE0F), (0xFE70, 0xFEFF), (0x1F000, 0x1FAFF)]

  predicate KeptChar(c: char) {
    c == SPACE_MARK ||
    exists r :: 0 <= r < |KEEP_RANGES| && KEEP_RANGES[r].0 <= c as int <= KEEP_RANGES[r].1
  }

  predicate Keeps(piece: string) {
    forall i :: 0 <= i < |piece| ==> KeptChar(piece[i])
  }

  /** The kept characters: the mark for a space, printable ASCII, Latin, combining marks, Arabic, punctuation, signs, emoji. */
  lemma KeptCharIs(c: char)
    ensures var n := c as int;
      KeptChar(c) <==>
      || n == 0x2581 || 0x21 <= n <= 0x7E || 0xA1 <= n <= 0x24F || 0x300 <= n <= 0x36F || 0x600 <= n <= 0x6FF
      || 0x750 <= n <= 0x77F || 0x8A0 <= n <= 0x8FF || 0x200C <= n <= 0x200F || 0x2010 <= n <= 0x205E
      || 0x20A0 <= n <= 0x20BF || 0x2190 <= n <= 0x21FF || 0x2600 <= n <= 0x27BF || 0xFB50 <= n <= 0xFDFF
      || 0xFE00 <= n <= 0xFE0F || 0xFE70 <= n <= 0xFEFF || 0x1F000 <= n <= 0x1FAFF
  {
    assert KEEP_RANGES[0] == (0x0021, 0x007E) && KEEP_RANGES[1] == (0x00A1, 0x024F) && KEEP_RANGES[2] == (0x0300, 0x036F);
    assert KEEP_RANGES[3] == (0x0600, 0x06FF) && KEEP_RANGES[4] == (0x0750, 0x077F) && KEEP_RANGES[5] == (0x08A0, 0x08FF);
    assert KEEP_RANGES[6] == (0x200C, 0x200F) && KEEP_RANGES[7] == (0x2010, 0x205E) && KEEP_RANGES[8] == (0x20A0, 0x20BF);
    assert KEEP_RANGES[9] == (0x2190, 0x21FF) && KEEP_RANGES[10] == (0x2600, 0x27BF) && KEEP_RANGES[11] == (0xFB50, 0xFDFF);
    assert KEEP_RANGES[12] == (0xFE00, 0xFE0F) && KEEP_RANGES[13] == (0xFE70, 0xFEFF) && KEEP_RANGES[14] == (0x1F000, 0x1FAFF);
  }

  lemma KeepsJoin(a: string, b: string)
    ensures Keeps(a + b) <==> Keeps(a) && Keeps(b)
  {
    hide KeptChar;
    if Keeps(a + b) {
      assert forall i :: 0 <= i < |a| ==> a[i] == (a + b)[i];
      assert forall i :: 0 <= i < |b| ==> b[i] == (a + b)[|a| + i];
    }
  }
}
