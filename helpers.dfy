/** Container-type detection and SquashFS offset resolution
    (package `helpers`, file helpers/offset.go). A file is its bytes; the
    shell-script variant is also given as the lines a line scanner yields. */
module Helpers {
  import opened Wrappers
  import opened Binary
  import opened Strings
  import Strconv

  /** The errors the functions below return; the comments give the Go messages. */
  datatype Error =
    | UnknownType            // "unable to get AppImage type"
    | MissingType2Magic      // "AppImage missing `AI\0x02` magic at offset 0x08!"
    | UnsupportedType        // "unsupported AppImage type"
    | OffsetNotFound         // "unable to find shappimage offset from `sfs_offset` variable"
    | BadOffset(cause: Strconv.NumError)  // from strconv.Atoi
    | ElfRejected            // from elf.NewFile
    | ElfHeaderTruncated     // from binary.Read: the header is cut short

  /** The `(int, error)` pair the Go functions return. */
  datatype Ret = Ret(value: int, err: Option<Error>)

  // ----- HasMagic -----------------------------------------------------------

  /** `io.ReadFull` of `n` bytes after seeking to `off`. Reading nothing
      succeeds even past the end of the file. */
  function ReadFull(file: seq<byte>, off: nat, n: nat): (r: Option<seq<byte>>)
    ensures r.Some? <==> n == 0 || off + n <= |file|
    ensures r.Some? ==> |r.value| == n
    ensures r.Some? && n > 0 ==> r.value == file[off..off + n]
  {
    if n == 0 then Some([])
    else if off + n <= |file| then Some(file[off..off + n])
    else None
  }

  /** The file holds `magic` at byte `off`: bytes `off .. off+|magic|-1` exist
      and equal it (an empty magic is found anywhere). */
  predicate MagicAt(file: seq<byte>, magic: seq<byte>, off: nat)
  {
    |magic| == 0 || (off + |magic| <= |file| && file[off..off + |magic|] == magic)
  }

  /** Reads `|magic|` bytes at `off` and compares them one by one; a short file
      gives false, never a failure. */
  method HasMagic(file: seq<byte>, magic: seq<byte>, off: nat) returns (r: bool)
    ensures r == MagicAt(file, magic, off)
  {
    var read := ReadFull(file, off, |magic|);
    if read.None? {
      return false;
    }
    var buf := read.value;
    for i := 0 to |magic|
      invariant buf[..i] == magic[..i]
    {
      if buf[i] != magic[i] {
        return false;
      }
    }
    assert buf == buf[..|magic|];
    return true;
  }

  // ----- GetAppImageType ----------------------------------------------------

  const ElfMagic: seq<byte> := [0x7f, 0x45, 0x4c, 0x46]          // "\x7fELF"
  const Type1Magic: seq<byte> := [0x41, 0x49, 0x01]              // "AI\x01"
  const Type2Magic: seq<byte> := [0x41, 0x49, 0x02]              // "AI\x02"
  const ShImgMagic: seq<byte> := Ascii("#!/bin/sh\n#.shImg.#")

  /** Classifies a file: 1 and 2 for ELF AppImages of those types, 0 for any
      other ELF file, -2 for a shell-script AppImage (shappimage), and -1 with
      an error for everything else. */
  function GetAppImageType(file: seq<byte>): (r: Ret)
    ensures r.value in {1, 2, 0, -2, -1}
    ensures r.err.None? <==> r.value != -1
    ensures r.err.Some? ==> r.err.value == UnknownType
    ensures r.value == 1 <==>
      |file| >= 11 && file[..4] == ElfMagic && file[8..11] == Type1Magic
    ensures r.value == 2 <==>
      |file| >= 11 && file[..4] == ElfMagic && file[8..11] == Type2Magic
    ensures r.value == 0 <==>
      |file| >= 4 && file[..4] == ElfMagic &&
      !(|file| >= 11 && file[8] == 0x41 && file[9] == 0x49 && (file[10] == 1 || file[10] == 2))
    ensures r.value == -2 <==>
      !(|file| >= 4 && file[..4] == ElfMagic) && |file| >= 19 && file[..19] == ShImgMagic
  {
    if MagicAt(file, ElfMagic, 0) then
      if MagicAt(file, Type1Magic, 8) then Ret(1, None)
      else if MagicAt(file, Type2Magic, 8) then Ret(2, None)
      else Ret(0, None)
    else if MagicAt(file, ShImgMagic, 0) then Ret(-2, None)
    else Ret(-1, Some(UnknownType))
  }

  /** Detection never fails on a short file: one that is neither ELF nor long
      enough for the shell-script marker is simply not an AppImage. */
  lemma ShortNonElfIsUnknown(file: seq<byte>)
    requires |file| < 19
    requires !(|file| >= 4 && file[..4] == ElfMagic)
    ensures GetAppImageType(file) == Ret(-1, Some(UnknownType))
  {
    var r := GetAppImageType(file);
    assert r.value != -2;
  }

  // ----- getShappImageSize --------------------------------------------------

  const OffsetPrefix: string := "sfs_offset="

  /** The scan's test of one line: longer than ten characters, starting with
      `sfs_offset=`, and splitting on `=` into exactly two parts. */
  predicate IsOffsetLine(line: string)
  {
    |line| > 10 && line[0..11] == OffsetPrefix && |Split(line, '=')| == 2
  }

  /** A line passes the test iff it starts with `sfs_offset=` and holds no
      other `=`; its value is then everything after the prefix. */
  lemma OffsetLineShape(line: string)
    ensures IsOffsetLine(line) <==> HasPrefix(line, OffsetPrefix) && '=' !in line[11..]
    ensures IsOffsetLine(line) ==> Split(line, '=')[1] == line[11..]
  {
    if HasPrefix(line, OffsetPrefix) {
      assert line[10] == '=';
      assert '=' !in line[..10] by {
        assert line[..10] == OffsetPrefix[..10];
      }
      if '=' !in line[11..] {
        SplitAtOnlySeparator(line, '=', 10);
      } else {
        assert Count(line, '=') >= 2 by {
          CountTwo(line, 10);
        }
      }
    }
  }

  /** A string with a separator at `k` and another one after it counts at least two. */
  lemma {:induction false} CountTwo(s: string, k: nat)
    requires k < |s| && s[k] == '=' && '=' in s[k + 1..]
    ensures Count(s, '=') >= 2
  {
    if k == 0 {
      assert s[1..] == s[k + 1..];
    } else {
      assert s[1..][k - 1 + 1..] == s[k + 1..];
      CountTwo(s[1..], k - 1);
    }
  }

  /** Parses the value of an offset line: every `'` and `"` removed, the
      rest read as a base-10 integer. */
  function OffsetValue(line: string): Ret
    requires IsOffsetLine(line)
  {
    ParseOffset(Split(line, '=')[1])
  }

  /** The value with every `'` and then every `"` removed. */
  function StripQuotes(raw: string): string
  {
    RemoveAll(RemoveAll(raw, '\''), '"')
  }

  /** The text after `=` with its quotes stripped, through strconv.Atoi. */
  function ParseOffset(raw: string): Ret
  {
    var unquoted := StripQuotes(raw);
    var o := Strconv.Atoi(unquoted);
    Ret(o.value, if o.err.Some? then Some(BadOffset(o.err.value)) else None)
  }

  /** The offset a shell-script AppImage declares: the value of the FIRST line
      that passes the test, whether it parses or not; without such a line,
      -1 and an error. */
  function ShImgOffset(lines: seq<string>): (r: Ret)
    ensures r.err == Some(OffsetNotFound) <==> forall i :: 0 <= i < |lines| ==> !IsOffsetLine(lines[i])
    ensures r.err == Some(OffsetNotFound) ==> r.value == -1
    ensures r.err != Some(OffsetNotFound) ==>
      exists k :: 0 <= k < |lines| && IsOffsetLine(lines[k]) &&
        (forall i :: 0 <= i < k ==> !IsOffsetLine(lines[i])) && r == OffsetValue(lines[k])
  {
    if lines == [] then Ret(-1, Some(OffsetNotFound))
    else if IsOffsetLine(lines[0]) then OffsetValue(lines[0])
    else
      var r := ShImgOffset(lines[1..]);
      assert forall i :: 1 <= i < |lines| ==> lines[i] == lines[1..][i - 1];
      if r.err != Some(OffsetNotFound) then
        var k :| 0 <= k < |lines[1..]| && IsOffsetLine(lines[1..][k]) &&
          (forall i :: 0 <= i < k ==> !IsOffsetLine(lines[1..][i])) && r == OffsetValue(lines[1..][k]);
        assert IsOffsetLine(lines[k + 1]) && r == OffsetValue(lines[k + 1]);
        r
      else
        r
  }

  /** `getShappImageSize`: scans the lines and returns on the first match. */
  method GetShappImageSize(lines: seq<string>) returns (r: Ret)
    ensures r == ShImgOffset(lines)
  {
    var i := 0;
    while i < |lines|
      invariant 0 <= i <= |lines|
      invariant forall j :: 0 <= j < i ==> !IsOffsetLine(lines[j])
    {
      var line := lines[i];
      if |line| > 10 && line[0..11] == OffsetPrefix && |Split(line, '=')| == 2 {
        var offHex := Split(line, '=')[1];
        offHex := RemoveAll(offHex, '\'');
        offHex := RemoveAll(offHex, '"');
        var o := Strconv.Atoi(offHex);
        r := Ret(o.value, if o.err.Some? then Some(BadOffset(o.err.value)) else None);
        FirstOffsetLine(lines, i);
        return;
      }
      i := i + 1;
    }
    return Ret(-1, Some(OffsetNotFound));
  }

  /** The scan's result is fixed by the first line that passes the test. */
  lemma {:induction false} FirstOffsetLine(lines: seq<string>, k: nat)
    requires k < |lines| && IsOffsetLine(lines[k])
    requires forall i :: 0 <= i < k ==> !IsOffsetLine(lines[i])
    ensures ShImgOffset(lines) == OffsetValue(lines[k])
  {
    if k > 0 {
      assert lines[1..][k - 1] == lines[k];
      FirstOffsetLine(lines[1..], k - 1);
    }
  }

  /** A script whose first offset line is `sfs_offset=N`, `sfs_offset='N'` or
      `sfs_offset="N"` resolves to N, for every 64-bit N, negative ones included. */
  lemma QuotedOffsetResolves(lines: seq<string>, k: nat, quote: string, n: int)
    requires quote == "" || quote == "'" || quote == "\""
    requires Strconv.MinInt64 <= n <= Strconv.MaxInt64
    requires k < |lines| && lines[k] == OffsetPrefix + (quote + Strconv.Itoa(n) + quote)
    requires forall i :: 0 <= i < k ==> !IsOffsetLine(lines[i])
    ensures ShImgOffset(lines) == Ret(n, None)
  {
    var digits := Strconv.Itoa(n);
    var value := quote + digits + quote;
    ItoaPlain(n);
    assert '=' !in value;
    assert lines[k] == OffsetPrefix + value;
    PrefixedLine(value);
    FirstOffsetLine(lines, k);
    Unquote(quote, digits);
    Strconv.AtoiItoa(n);
  }

  /** `sfs_offset=` followed by a value without `=` passes the test and has that value. */
  lemma PrefixedLine(value: string)
    requires '=' !in value
    ensures IsOffsetLine(OffsetPrefix + value)
    ensures OffsetValue(OffsetPrefix + value) == ParseOffset(value)
  {
    var line := OffsetPrefix + value;
    assert line[..11] == OffsetPrefix && line[11..] == value;
    OffsetLineShape(line);
  }

  /** There is no hexadecimal form: a first offset line `sfs_offset=0x...`,
      bare or in quotes, gives 0 and a syntax error, and later lines are not tried. */
  lemma HexOffsetRejected(lines: seq<string>, k: nat, quote: string, hex: string)
    requires quote == "" || quote == "'" || quote == "\""
    requires '=' !in hex
    requires k < |lines| && lines[k] == OffsetPrefix + (quote + ("0x" + hex) + quote)
    requires forall i :: 0 <= i < k ==> !IsOffsetLine(lines[i])
    ensures ShImgOffset(lines) == Ret(0, Some(BadOffset(Strconv.ErrSyntax("0x" + StripQuotes(hex)))))
  {
    var value := quote + ("0x" + hex) + quote;
    HexValue(quote, hex);
    assert lines[k] == OffsetPrefix + value;
    PrefixedLine(value);
    FirstOffsetLine(lines, k);
  }

  lemma HexValue(quote: string, hex: string)
    requires quote == "" || quote == "'" || quote == "\""
    requires '=' !in hex
    ensures '=' !in quote + ("0x" + hex) + quote
    ensures ParseOffset(quote + ("0x" + hex) + quote) ==
      Ret(0, Some(BadOffset(Strconv.ErrSyntax("0x" + StripQuotes(hex)))))
  {
    StripQuotesOfQuoted(quote, "0x" + hex);
    var h1 := RemoveAll(hex, '\'');
    RemoveAllConcat("0x", hex, '\'');
    RemoveAllAbsent("0x", '\'');
    RemoveAllConcat("0x", h1, '"');
    RemoveAllAbsent("0x", '"');
    var value := "0x" + StripQuotes(hex);
    assert StripQuotes(quote + ("0x" + hex) + quote) == value;
    assert value[1] == 'x';
    Strconv.AtoiRejectsNonDigit(value, 1);
  }

  /** Itoa writes no quote and no `=`. */
  lemma ItoaPlain(n: int)
    ensures '=' !in Strconv.Itoa(n) && '\'' !in Strconv.Itoa(n) && '"' !in Strconv.Itoa(n)
  {
    var digits := Strconv.Itoa(n);
    assert forall i :: 0 <= i < |digits| ==> digits[i] == '-' || Strconv.IsDigit(digits[i]);
  }

  /** Stripping the quotes from a value in one kind of quote strips them
      from the value alone: the surrounding quotes vanish with the inner ones. */
  lemma StripQuotesOfQuoted(quote: string, x: string)
    requires quote == "" || quote == "'" || quote == "\""
    ensures StripQuotes(quote + x + quote) == StripQuotes(x)
  {
    var q1 := RemoveAll(quote, '\'');
    var x1 := RemoveAll(x, '\'');
    RemoveAllConcat(quote + x, quote, '\'');
    RemoveAllConcat(quote, x, '\'');
    assert RemoveAll(quote + x + quote, '\'') == q1 + x1 + q1;
    RemoveAllConcat(q1 + x1, q1, '"');
    RemoveAllConcat(q1, x1, '"');
    assert RemoveAll(q1, '"') == "";
  }

  /** Stripping both quote characters from a quoted, quote-free value leaves the value. */
  lemma Unquote(quote: string, digits: string)
    requires quote == "" || quote == "'" || quote == "\""
    requires '\'' !in digits && '"' !in digits
    ensures StripQuotes(quote + digits + quote) == digits
  {
    StripQuotesOfQuoted(quote, digits);
    RemoveAllAbsent(digits, '\'');
    RemoveAllAbsent(digits, '"');
  }

  // ----- getElfSize ---------------------------------------------------------

  const ElfClass32: byte := 1
  const ElfClass64: byte := 2

  /** The byte order `EI_DATA` (byte 5) declares: 1 is little-, 2 big-endian. */
  function DataOrder(data: byte): Option<ByteOrder>
  {
    if data == 1 then Some(LittleEndian)
    else if data == 2 then Some(BigEndian)
    else None
  }

  /** The header field of `width` bytes at `off`, read in `order`. */
  function Field(file: seq<byte>, off: nat, width: nat, order: ByteOrder): nat
    requires off + width <= |file|
  {
    Uint(order, file[off..off + width])
  }

  /** A mathematical integer as a Go `int` (two's-complement 64 bits) stores it. */
  function Signed64(x: int): (r: int)
    ensures Strconv.MinInt64 <= r <= Strconv.MaxInt64
  {
    var m := x % 0x1_0000_0000_0000_0000;
    if m <= Strconv.MaxInt64 then m else m - 0x1_0000_0000_0000_0000
  }

  /** `getElfSize`: where the section header table ends, `e_shoff +
      e_shentsize * e_shnum`, read from the ELF header (System V gABI, chapter 4,
      "ELF Header"). `newFileAccepts` is the verdict of `elf.NewFile`, which the
      model does not see; it cannot accept a file without the 16-byte `e_ident`
      or with an unknown data encoding. */
  function GetElfSize(file: seq<byte>, newFileAccepts: bool): (r: Ret)
    ensures Strconv.MinInt64 <= r.value <= Strconv.MaxInt64
    ensures r.err.Some? ==> r.value == -1
    ensures r.err == Some(ElfRejected) <==>
      !newFileAccepts || |file| < 16 || DataOrder(file[5]).None?
    ensures r.err == Some(ElfHeaderTruncated) <==>
      newFileAccepts && |file| >= 16 && DataOrder(file[5]).Some? &&
      ((file[4] == ElfClass64 && |file| < 64) || (file[4] == ElfClass32 && |file| < 52))
    ensures (newFileAccepts && |file| >= 16 && DataOrder(file[5]).Some? &&
             file[4] != ElfClass32 && file[4] != ElfClass64) ==> r == Ret(0, None)
  {
    if !newFileAccepts || |file| < 16 || DataOrder(file[5]).None? then
      Ret(-1, Some(ElfRejected))
    else
      var order := DataOrder(file[5]).value;
      if file[4] == ElfClass64 then
        if |file| < 64 then Ret(-1, Some(ElfHeaderTruncated))
        else
          var shoff := Signed64(Field(file, 40, 8, order));
          var shentsize := Field(file, 58, 2, order);
          var shnum := Field(file, 60, 2, order);
          Ret(Signed64(shoff + shentsize * shnum), None)
      else if file[4] == ElfClass32 then
        if |file| < 52 then Ret(-1, Some(ElfHeaderTruncated))
        else
          var shoff := Field(file, 32, 4, order);
          var shentsize := Field(file, 46, 2, order);
          var shnum := Field(file, 48, 2, order);
          ProductBound(shentsize, shnum);
          Ret(shoff + shentsize * shnum, None)
      else Ret(0, None)
  }

  /** The data byte that declares `order`. */
  function DataByte(order: ByteOrder): byte
  {
    if order == LittleEndian then 1 else 2
  }

  /** Two 16-bit fields multiply to less than 2^32. */
  lemma {:induction false} ProductBound(s: nat, n: nat)
    requires s < 0x1_0000 && n < 0x1_0000
    ensures s * n < 0x1_0000_0000
    decreases s
  {
    if s > 0 {
      ProductBound(s - 1, n);
      assert s * n == (s - 1) * n + n;
    }
  }

  /** Converting to a Go `int` before a wrapping addition changes nothing. */
  lemma Signed64OfSum(a: int, b: int)
    ensures Signed64(Signed64(a) + b) == Signed64(a + b)
  {
    var m := 0x1_0000_0000_0000_0000;
    var q := a / m;
    assert a == q * m + a % m;
    var x := Signed64(a) + b;
    var k := if a % m <= Strconv.MaxInt64 then q else q + 1;
    assert a + b == x + k * m;
    ModShift(x, k);
  }

  lemma ModShift(x: int, k: int)
    ensures (x + k * 0x1_0000_0000_0000_0000) % 0x1_0000_0000_0000_0000 == x % 0x1_0000_0000_0000_0000
  {
  }

  /** A 64-bit header that stores `e_shoff` = O, `e_shentsize` = S and
      `e_shnum` = N yields O + S*N, wrapped to a Go `int` (two's complement,
      64 bits). */
  lemma Elf64SizeOfHeader(file: seq<byte>, order: ByteOrder, o: nat, s: nat, n: nat)
    requires |file| >= 64 && file[4] == ElfClass64 && file[5] == DataByte(order)
    requires o < Pow256(8) && s < Pow256(2) && n < Pow256(2)
    requires file[40..48] == Encode(order, o, 8)
    requires file[58..60] == Encode(order, s, 2)
    requires file[60..62] == Encode(order, n, 2)
    ensures GetElfSize(file, true) == Ret(Signed64(o + s * n), None)
  {
    FieldOfEncode(file, 40, 8, order, o);
    FieldOfEncode(file, 58, 2, order, s);
    FieldOfEncode(file, 60, 2, order, n);
    var p := s * n;
    assert GetElfSize(file, true) == Ret(Signed64(Signed64(o) + p), None);
    Signed64OfSum(o, p);
  }

  /** A value that already fits in a Go `int` is stored as itself. */
  lemma Signed64InRange(x: int)
    requires 0 <= x <= Strconv.MaxInt64
    ensures Signed64(x) == x
  {
  }

  /** A field that holds the encoding of `v` reads back as `v`. */
  lemma FieldOfEncode(file: seq<byte>, off: nat, width: nat, order: ByteOrder, v: nat)
    requires off + width <= |file| && v < Pow256(width)
    requires file[off..off + width] == Encode(order, v, width)
    ensures Field(file, off, width, order) == v
  {
    DecodeEncode(order, v, width);
  }

  /** A 32-bit header that stores O, S and N yields exactly O + S*N. */
  lemma Elf32SizeOfHeader(file: seq<byte>, order: ByteOrder, o: nat, s: nat, n: nat)
    requires |file| >= 52 && file[4] == ElfClass32 && file[5] == DataByte(order)
    requires o < Pow256(4) && s < Pow256(2) && n < Pow256(2)
    requires file[32..36] == Encode(order, o, 4)
    requires file[46..48] == Encode(order, s, 2)
    requires file[48..50] == Encode(order, n, 2)
    ensures GetElfSize(file, true) == Ret(o + s * n, None)
  {
    FieldOfEncode(file, 32, 4, order, o);
    FieldOfEncode(file, 46, 2, order, s);
    FieldOfEncode(file, 48, 2, order, n);
  }

  // ----- GetOffset ----------------------------------------------------------

  /** `GetOffset`: the offset of the SquashFS image, by the detected type:
      the declared offset for a shappimage, the ELF size for type 2, and an
      error otherwise. */
  function GetOffset(file: seq<byte>, lines: seq<string>, newFileAccepts: bool): (r: Ret)
    ensures GetAppImageType(file).err.Some? ==> r == Ret(-1, GetAppImageType(file).err)
    ensures GetAppImageType(file).value == -2 ==> r == ShImgOffset(lines)
    ensures GetAppImageType(file).value == 2 ==> r == GetElfSize(file, newFileAccepts)
    ensures GetAppImageType(file).value == 0 ==> r == Ret(-1, Some(MissingType2Magic))
    ensures GetAppImageType(file).value == 1 ==> r == Ret(-1, Some(UnsupportedType))
    ensures r.err.None? ==> GetAppImageType(file).value in {2, -2}
  {
    var t := GetAppImageType(file);
    if t.err.Some? then Ret(-1, t.err)
    else if t.value == -2 then ShImgOffset(lines)
    else if t.value == 2 then GetElfSize(file, newFileAccepts)
    else if t.value == 0 then Ret(-1, Some(MissingType2Magic))
    else Ret(-1, Some(UnsupportedType))
  }

  /** A 64-bit type-2 AppImage whose header stores O, S and N is mounted from
      byte O + S*N (when that fits in a Go `int`). */
  lemma Type2OffsetIsSectionTableEnd(file: seq<byte>, lines: seq<string>, order: ByteOrder, o: nat, s: nat, n: nat)
    requires |file| >= 64 && file[..4] == ElfMagic && file[8..11] == Type2Magic
    requires file[4] == ElfClass64 && file[5] == DataByte(order)
    requires o < Pow256(8) && s < Pow256(2) && n < Pow256(2) && o + s * n <= Strconv.MaxInt64
    requires file[40..48] == Encode(order, o, 8)
    requires file[58..60] == Encode(order, s, 2)
    requires file[60..62] == Encode(order, n, 2)
    ensures GetOffset(file, lines, true) == Ret(o + s * n, None)
  {
    assert GetAppImageType(file).value == 2;
    assert GetOffset(file, lines, true) == GetElfSize(file, true);
    Elf64SizeOfHeader(file, order, o, s, n);
    Signed64InRange(o + s * n);
  }
}
