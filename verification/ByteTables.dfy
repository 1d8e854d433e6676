/** The two byte tables of the tokenizer, entry by entry, against their closed forms. */
module ByteTables {
  import opened Tokenizer

  /** The characters bytes are shown as; a character of two bytes has its first byte in the low half. */
  const BYTE_TO_UNICODE: seq<seq<nat>> := [
    [32964, 33220, 33476, 33732, 33988, 34244, 34500, 34756, 35012, 35268, 35524, 35780, 36036, 36292, 36548, 36804],
    [37060, 37316, 37572, 37828, 38084, 38340, 38596, 38852, 39108, 39364, 39620, 39876, 40132, 40388, 40644, 40900],
    [41156, 33, 34, 35, 36, 37, 38, 39, 40, 41, 42, 43, 44, 45, 46, 47],
    [48, 49, 50, 51, 52, 53, 54, 55, 56, 57, 58, 59, 60, 61, 62, 63],
    [64, 65, 66, 67, 68, 69, 70, 71, 72, 73, 74, 75, 76, 77, 78, 79],
    [80, 81, 82, 83, 84, 85, 86, 87, 88, 89, 90, 91, 92, 93, 94, 95],
    [96, 97, 98, 99, 100, 101, 102, 103, 104, 105, 106, 107, 108, 109, 110, 111],
    [112, 113, 114, 115, 116, 117, 118, 119, 120, 121, 122, 123, 124, 125, 126, 41412],
    [41668, 41924, 42180, 42436, 42692, 42948, 43204, 43460, 43716, 43972, 44228, 44484, 44740, 44996, 45252, 45508],
    [45764, 46020, 46276, 46532, 46788, 47044, 47300, 47556, 47812, 48068, 48324, 48580, 48836, 49092, 32965, 33221],
    [33477, 41410, 41666, 41922, 42178, 42434, 42690, 42946, 43202, 43458, 43714, 43970, 44226, 33733, 44738, 44994],
    [45250, 45506, 45762, 46018, 46274, 46530, 46786, 47042, 47298, 47554, 47810, 48066, 48322, 48578, 48834, 49090],
    [32963, 33219, 33475, 33731, 33987, 34243, 34499, 34755, 35011, 35267, 35523, 35779, 36035, 36291, 36547, 36803],
    [37059, 37315, 37571, 37827, 38083, 38339, 38595, 38851, 39107, 39363, 39619, 39875, 40131, 40387, 40643, 40899],
    [41155, 41411, 41667, 41923, 42179, 42435, 42691, 42947, 43203, 43459, 43715, 43971, 44227, 44483, 44739, 44995],
    [45251, 45507, 45763, 46019, 46275, 46531, 46787, 47043, 47299, 47555, 47811, 48067, 48323, 48579, 48835, 49091]
  ]

  /** The length of a UTF-8 character by its first byte, -1 for bytes that start none. */
  const UTF8_LENGTHS: seq<seq<int>> := [
    [0, 1, 1, 1, 1, 1, 1, 1, 1, 1, 1, 1, 1, 1, 1, 1],
    [1, 1, 1, 1, 1, 1, 1, 1, 1, 1, 1, 1, 1, 1, 1, 1],
    [1, 1, 1, 1, 1, 1, 1, 1, 1, 1, 1, 1, 1, 1, 1, 1],
    [1, 1, 1, 1, 1, 1, 1, 1, 1, 1, 1, 1, 1, 1, 1, 1],
    [1, 1, 1, 1, 1, 1, 1, 1, 1, 1, 1, 1, 1, 1, 1, 1],
    [1, 1, 1, 1, 1, 1, 1, 1, 1, 1, 1, 1, 1, 1, 1, 1],
    [1, 1, 1, 1, 1, 1, 1, 1, 1, 1, 1, 1, 1, 1, 1, 1],
    [1, 1, 1, 1, 1, 1, 1, 1, 1, 1, 1, 1, 1, 1, 1, 1],
    [-1, -1, -1, -1, -1, -1, -1, -1, -1, -1, -1, -1, -1, -1, -1, -1],
    [-1, -1, -1, -1, -1, -1, -1, -1, -1, -1, -1, -1, -1, -1, -1, -1],
    [-1, -1, -1, -1, -1, -1, -1, -1, -1, -1, -1, -1, -1, -1, -1, -1],
    [-1, -1, -1, -1, -1, -1, -1, -1, -1, -1, -1, -1, -1, -1, -1, -1],
    [2, 2, 2, 2, 2, 2, 2, 2, 2, 2, 2, 2, 2, 2, 2, 2],
    [2, 2, 2, 2, 2, 2, 2, 2, 2, 2, 2, 2, 2, 2, 2, 2],
    [3, 3, 3, 3, 3, 3, 3, 3, 3, 3, 3, 3, 3, 3, 3, 3],
    [4, 4, 4, 4, 4, 4, 4, 4, -1, -1, -1, -1, -1, -1, -1, -1]
  ]

  /** The two bytes of a character below 324, block by block of 64 characters. */
  lemma PairIs(c: nat)
    requires 128 <= c < 324
    ensures Utf8Pair(c) == 256 * c +
      if c < 192 then 194
      else if c < 256 then 195 - 256 * 64
      else if c < 320 then 196 - 256 * 128
      else 197 - 256 * 192
  {
  }

  lemma Rows0And1(b: Byte)
    requires 0 <= b < 32
    ensures ByteToUnicode(b) == BYTE_TO_UNICODE[b / 16][b % 16]
  {
    if CodePoint(b) >= 128 { PairIs(CodePoint(b)); }
    hide Utf8Pair;
    var row := if b < 16 then BYTE_TO_UNICODE[0] else BYTE_TO_UNICODE[1];
    assert ByteToUnicode(b) == row[b % 16];
  }

  lemma Rows2And3(b: Byte)
    requires 32 <= b < 64
    ensures ByteToUnicode(b) == BYTE_TO_UNICODE[b / 16][b % 16]
  {
    if CodePoint(b) >= 128 { PairIs(CodePoint(b)); }
    hide Utf8Pair;
    var row := if b < 48 then BYTE_TO_UNICODE[2] else BYTE_TO_UNICODE[3];
    assert ByteToUnicode(b) == row[b % 16];
  }

  lemma Rows4And5(b: Byte)
    requires 64 <= b < 96
    ensures ByteToUnicode(b) == BYTE_TO_UNICODE[b / 16][b % 16]
  {
    if CodePoint(b) >= 128 { PairIs(CodePoint(b)); }
    hide Utf8Pair;
    var row := if b < 80 then BYTE_TO_UNICODE[4] else BYTE_TO_UNICODE[5];
    assert ByteToUnicode(b) == row[b % 16];
  }

  lemma Rows6And7(b: Byte)
    requires 96 <= b < 128
    ensures ByteToUnicode(b) == BYTE_TO_UNICODE[b / 16][b % 16]
  {
    if CodePoint(b) >= 128 { PairIs(CodePoint(b)); }
    hide Utf8Pair;
    var row := if b < 112 then BYTE_TO_UNICODE[6] else BYTE_TO_UNICODE[7];
    assert ByteToUnicode(b) == row[b % 16];
  }

  lemma Rows8And9(b: Byte)
    requires 128 <= b < 160
    ensures ByteToUnicode(b) == BYTE_TO_UNICODE[b / 16][b % 16]
  {
    if CodePoint(b) >= 128 { PairIs(CodePoint(b)); }
    hide Utf8Pair;
    var row := if b < 144 then BYTE_TO_UNICODE[8] else BYTE_TO_UNICODE[9];
    assert ByteToUnicode(b) == row[b % 16];
  }

  lemma Rows10And11(b: Byte)
    requires 160 <= b < 192
    ensures ByteToUnicode(b) == BYTE_TO_UNICODE[b / 16][b % 16]
  {
    if CodePoint(b) >= 128 { PairIs(CodePoint(b)); }
    hide Utf8Pair;
    var row := if b < 176 then BYTE_TO_UNICODE[10] else BYTE_TO_UNICODE[11];
    assert ByteToUnicode(b) == row[b % 16];
  }

  lemma Rows12And13(b: Byte)
    requires 192 <= b < 224
    ensures ByteToUnicode(b) == BYTE_TO_UNICODE[b / 16][b % 16]
  {
    if CodePoint(b) >= 128 { PairIs(CodePoint(b)); }
    hide Utf8Pair;
    var row := if b < 208 then BYTE_TO_UNICODE[12] else BYTE_TO_UNICODE[13];
    assert ByteToUnicode(b) == row[b % 16];
  }

  lemma Rows14And15(b: Byte)
    requires 224 <= b < 256
    ensures ByteToUnicode(b) == BYTE_TO_UNICODE[b / 16][b % 16]
  {
    if CodePoint(b) >= 128 { PairIs(CodePoint(b)); }
    hide Utf8Pair;
    var row := if b < 240 then BYTE_TO_UNICODE[14] else BYTE_TO_UNICODE[15];
    assert ByteToUnicode(b) == row[b % 16];
  }

  /** The mapping of bytes is the table, at all 256 bytes. */
  lemma ByteToUnicodeIsTable(b: Byte)
    ensures ByteToUnicode(b) == BYTE_TO_UNICODE[b / 16][b % 16]
  {
    hide ByteToUnicode, BYTE_TO_UNICODE;
    match b / 32
    case 0 => Rows0And1(b);
    case 1 => Rows2And3(b);
    case 2 => Rows4And5(b);
    case 3 => Rows6And7(b);
    case 4 => Rows8And9(b);
    case 5 => Rows10And11(b);
    case 6 => Rows12And13(b);
    case 7 => Rows14And15(b);
  }

  /** The lengths are the table, at all 256 bytes. */
  lemma UseNBytesIsTable(b: Byte)
    ensures UseNBytes(b) == UTF8_LENGTHS[b / 16][b % 16]
  {
  }

  /** What a byte becomes in the replaced text, read off the table: its entry, low byte first. */
  lemma MappedIsTable(b: Byte)
    ensures var entry := BYTE_TO_UNICODE[b / 16][b % 16];
      Mapped(b) == if entry < 128 then [entry] else [entry % 256, entry / 256]
  {
    ByteToUnicodeIsTable(b);
    PairHalves(CodePoint(b));
    hide BYTE_TO_UNICODE;
  }
}
