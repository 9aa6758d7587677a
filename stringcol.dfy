/**
 * A FITS table column of strings. The column keeps its cells as strings
 * (`data`, `size` of them once loaded) and moves them to and from the FITS
 * file through a transfer buffer of `size` rows of `width + 1` characters,
 * each row a NUL-terminated C string. An optional NUL value (`nulval`) is
 * kept as a `width + 1` character buffer.
 *
 * The column geometry (`width`, `repeat`, `number` rows, `length` cells per
 * row) belongs to the base table column class and is kept here as fields.
 * The CFITSIO transfer itself is foreign: reading is given as the text of
 * each cell in the file, writing hands out the buffer rows.
 */
module FitsStringColumn {
  import opened Tools

  // ---------------------------------------------------------------------
  // Format strings
  // ---------------------------------------------------------------------

  /** The ASCII table format: "A" followed by the string width. */
  function AsciiFormat(width: int): (f: string)
    ensures |f| > 1 && f[0] == 'A' && ParseInt(f[1..]) == Some(width)
  {
    StrRoundTrip(width);
    StrCharacters(width);
    var f := "A" + Str(width);
    assert f[1..] == Str(width);
    f
  }

  /**
   * The binary table format: the repeat count, "A", and the width of the
   * substrings only when the repeat count exceeds the width. The repeat
   * count stands before the first 'A' and both numbers can be read back.
   */
  function BinaryFormat(repeat: int, width: int): (f: string)
    ensures var k := |Str(repeat)|;
      && k < |f| && f[k] == 'A' && 'A' !in f[..k]
      && ParseInt(f[..k]) == Some(repeat)
      && (repeat > width ==> ParseInt(f[k + 1..]) == Some(width))
      && (repeat <= width ==> |f| == k + 1)
  {
    StrRoundTrip(repeat);
    StrRoundTrip(width);
    StrCharacters(repeat);
    var f := Str(repeat) + "A" + (if repeat > width then Str(width) else "");
    var k := |Str(repeat)|;
    assert f[..k] == Str(repeat);
    assert f[k + 1..] == (if repeat > width then Str(width) else "");
    f
  }

  /** Two binary formats that read the same were built from the same repeat count, and the same width when it is shown. */
  lemma BinaryFormatInjective(r1: int, w1: int, r2: int, w2: int)
    requires BinaryFormat(r1, w1) == BinaryFormat(r2, w2)
    ensures r1 == r2
    ensures r1 > w1 <==> r2 > w2
    ensures r1 > w1 ==> w1 == w2
  {
    var f := BinaryFormat(r1, w1);
    var k1, k2 := |Str(r1)|, |Str(r2)|;
    assert k1 == k2;
    assert Some(r1) == ParseInt(f[..k1]) == Some(r2);
  }

  // ---------------------------------------------------------------------
  // C strings in fixed-width buffers
  // ---------------------------------------------------------------------

  /**
   * `strncpy(dst, src, n)` on the first n characters of `dst`: the C string
   * of `src` (up to its first NUL), cut to n characters, padded with NULs.
   */
  function Strncpy(src: seq<char>, n: nat): (r: seq<char>)
    ensures |r| == n
    ensures forall k :: 0 <= k < n ==> r[k] == if k < |CStr(src)| then src[k] else '\0'
  {
    seq(n, k requires 0 <= k < n => if k < |CStr(src)| then src[k] else '\0')
  }

  /** The string a cell of width `w` holds for the text `s`: its C string, cut to `w` characters. */
  function Fit(s: seq<char>, w: nat): (r: string)
    ensures |r| <= w && '\0' !in r
  {
    var c := CStr(s);
    if |c| <= w then c else c[..w]
  }

  /** Reading back a buffer filled by `strncpy` (and terminated, or full) gives the fitted string. */
  lemma StrncpyReadBack(s: seq<char>, w: nat, pad: seq<char>)
    requires pad == [] || pad[0] == '\0'
    ensures CStr(Strncpy(s, w) + pad) == Fit(s, w)
  {
    var c := CStr(s);
    var r := Strncpy(s, w);
    if |c| < w {
      var zeros := r[|c|..];
      assert r == c + zeros;
      assert r + pad == c + (zeros + pad);
      CStrOfTerminated(c, zeros + pad);
    } else {
      assert r == c[..w];
      CStrOfTerminated(c[..w], pad);
    }
  }

  /** A string already fitted to the width fits unchanged. */
  lemma FitIdempotent(s: seq<char>, w: nat)
    ensures Fit(Fit(s, w), w) == Fit(s, w)
  {
    var f := Fit(s, w);
    CStrOfTerminated(f, []);
    assert f + [] == f;
  }

  /** A string without NUL characters and at most `w` long is stored exactly. */
  lemma FitOfShort(s: string, w: nat)
    requires '\0' !in s && |s| <= w
    ensures Fit(s, w) == s
  {
    CStrOfTerminated(s, []);
    assert s + [] == s;
  }

  /** Row i of a character matrix. */
  function Row(buf: array2<char>, i: int): (r: seq<char>)
    requires 0 <= i < buf.Length0
    reads buf
    ensures |r| == buf.Length1 && forall j :: 0 <= j < buf.Length1 ==> r[j] == buf[i, j]
  {
    seq(buf.Length1, j requires 0 <= j < buf.Length1 reads buf => buf[i, j])
  }

  // ---------------------------------------------------------------------
  // The column
  // ---------------------------------------------------------------------

  class StringColumn {
    var width: nat
    var repeat: nat
    var number: nat
    var length: nat
    var size: nat
    var data: array?<string>
    var buffer: array2?<char>
    var nulval: array?<char>

    /**
     * A column of `number` rows of `length` cells of strings of `width`
     * characters, as the base class leaves it, with `init_members`: no data,
     * no buffer, no NUL value.
     */
    constructor (number: nat, length: nat, width: nat, repeat: nat)
      ensures this.number == number && this.length == length && this.width == width && this.repeat == repeat
      ensures size == 0 && data == null && buffer == null && nulval == null
    {
      this.number, this.length, this.width, this.repeat := number, length, width, repeat;
      size := 0;
      data, buffer, nulval := null, null, null;
    }

    /** `free_buffer`: the buffer is released; calling it again changes nothing. */
    method FreeBuffer()
      modifies this`buffer
      ensures buffer == null
    {
      if buffer != null {
        buffer := null;
      }
    }

    /** `alloc_buffer`: with cells to hold, `size` fresh rows of `width + 1` NUL characters. */
    method AllocBuffer()
      modifies this`buffer
      ensures size > 0 ==> buffer != null && fresh(buffer) && buffer.Length0 == size && buffer.Length1 == width + 1
      ensures size > 0 ==> forall i, j :: 0 <= i < size && 0 <= j <= width ==> buffer[i, j] == '\0'
      ensures size == 0 ==> buffer == old(buffer)
    {
      if size > 0 {
        var b := new char[size, width + 1];
        var i := 0;
        while i < size
          invariant 0 <= i <= size
          invariant forall a, c :: 0 <= a < i && 0 <= c <= width ==> b[a, c] == '\0'
        {
          var j := 0;
          while j <= width
            invariant 0 <= j <= width + 1
            invariant forall a, c :: 0 <= a < i && 0 <= c <= width ==> b[a, c] == '\0'
            invariant forall c :: 0 <= c < j ==> b[i, c] == '\0'
          {
            b[i, j] := '\0';
            j := j + 1;
          }
          i := i + 1;
        }
        buffer := b;
      }
    }

    /** `alloc_data`: any data are dropped; with cells to hold, `size` fresh empty strings. */
    method AllocData()
      modifies this`data
      ensures size == 0 ==> data == null
      ensures size > 0 ==> data != null && fresh(data) && data.Length == size
      ensures size > 0 ==> forall i :: 0 <= i < size ==> data[i] == ""
    {
      data := null;
      if size > 0 {
        data := new string[size](_ => "");
      }
    }

    /**
     * The read side of the foreign CFITSIO transfer, which `fetch_data`
     * relies on: the data are allocated and each buffer row receives the
     * text of its cell in the file, `strncpy`-style, leaving the final NUL.
     */
    method LoadColumn(cells: nat -> string)
      requires size > 0 ==> buffer != null && buffer.Length0 == size && buffer.Length1 == width + 1
      requires size > 0 ==> forall i :: 0 <= i < size ==> buffer[i, width] == '\0'
      modifies this`data, buffer
      ensures size == 0 ==> data == null
      ensures size > 0 ==> data != null && fresh(data) && data.Length == size
      ensures size > 0 ==> forall i :: 0 <= i < size ==> Row(buffer, i) == Strncpy(cells(i), width) + ['\0']
    {
      AllocData();
      if size == 0 {
        return;
      }
      var i := 0;
      while i < size
        modifies buffer
        invariant 0 <= i <= size
        invariant forall a :: 0 <= a < i ==> Row(buffer, a) == Strncpy(cells(a), width) + ['\0']
        invariant forall a :: i <= a < size ==> buffer[a, width] == '\0'
      {
        var text := Strncpy(cells(i), width);
        var j := 0;
        while j < width
          modifies buffer
          invariant 0 <= j <= width
          invariant forall a :: 0 <= a < i ==> Row(buffer, a) == Strncpy(cells(a), width) + ['\0']
          invariant forall a :: i <= a < size ==> buffer[a, width] == '\0'
          invariant forall c :: 0 <= c < j ==> buffer[i, c] == text[c]
        {
          buffer[i, j] := text[j];
          j := j + 1;
        }
        assert Row(buffer, i) == text + ['\0'];
        i := i + 1;
      }
    }

    /** The extraction loop of `fetch_data`: each cell takes the C string of its buffer row. */
    method ExtractRows(ghost cells: nat -> string)
      requires size > 0 ==> data != null && buffer != null && data.Length == size && buffer.Length0 == size
      requires size > 0 ==> forall i :: 0 <= i < size ==> Row(buffer, i) == Strncpy(cells(i), width) + ['\0']
      modifies data
      ensures size > 0 ==> forall i :: 0 <= i < size ==> data[i] == Fit(cells(i), width)
    {
      if size == 0 {
        return;
      }
      var i := 0;
      while i < size
        invariant 0 <= i <= size
        invariant forall a :: 0 <= a < i ==> data[a] == Fit(cells(a), width)
      {
        StrncpyReadBack(cells(i), width, ['\0']);
        data[i] := CStr(Row(buffer, i));
        i := i + 1;
      }
    }

    /**
     * `fetch_data`: the loaded size becomes `number * length`, and cell i
     * holds the text of cell i in the file as a string of at most `width`
     * characters; the transfer buffer is released afterwards.
     */
    method FetchData(cells: nat -> string)
      modifies this
      ensures size == number * length
      ensures number == old(number) && length == old(length) && width == old(width) && repeat == old(repeat)
      ensures nulval == old(nulval) && buffer == null
      ensures size == 0 ==> data == null
      ensures size > 0 ==> data != null && fresh(data) && data.Length == size
      ensures size > 0 ==> forall i :: 0 <= i < size ==> data[i] == Fit(cells(i), width)
    {
      size := number * length;
      FreeBuffer();
      AllocBuffer();
      LoadColumn(cells);
      ExtractRows(cells);
      FreeBuffer();
    }

    /** `release_data`: no data and nothing loaded. */
    method ReleaseData()
      modifies this`data, this`size
      ensures data == null && size == 0
    {
      data := null;
      size := 0;
    }

    /** A fresh `width + 1` character buffer holding `strncpy(buf, src, width)`. */
    method NewCStrBuffer(src: seq<char>) returns (n: array<char>)
      ensures fresh(n) && n.Length == width + 1 && n[..width] == Strncpy(src, width)
    {
      var text := Strncpy(src, width);
      n := new char[width + 1];
      var k := 0;
      while k < width
        invariant 0 <= k <= width
        invariant forall c :: 0 <= c < k ==> n[c] == text[c]
      {
        n[k] := text[k];
        k := k + 1;
      }
      assert n[..width] == text;
    }

    /**
     * `alloc_nulval`: an empty value leaves no NUL value; any other value is
     * copied `strncpy`-style into a fresh `width + 1` buffer, at most `width`
     * characters of it.
     */
    method AllocNulval(value: string)
      modifies this`nulval
      ensures value == "" ==> nulval == null
      ensures value != "" ==> nulval != null && fresh(nulval) && nulval.Length == width + 1
      ensures value != "" ==> nulval[..width] == Strncpy(value, width)
    {
      nulval := null;
      if value != "" {
        nulval := NewCStrBuffer(value);
      }
    }

    /** `init_data`: every loaded cell becomes the empty string; without data nothing happens. */
    method InitData()
      requires data != null ==> size <= data.Length
      modifies data
      ensures data != null ==> forall i :: 0 <= i < size ==> data[i] == ""
      ensures data != null ==> forall i :: size <= i < data.Length ==> data[i] == old(data[i])
    {
      if data != null {
        var i := 0;
        while i < size
          invariant 0 <= i <= size
          invariant forall a :: 0 <= a < i ==> data[a] == ""
          invariant forall a :: size <= a < data.Length ==> data[a] == old(data[a])
        {
          data[i] := "";
          i := i + 1;
        }
      }
    }

    /** `free_members`: no data, no NUL value, nothing loaded, no buffer. */
    method FreeMembers()
      modifies this`data, this`nulval, this`size, this`buffer
      ensures data == null && nulval == null && size == 0 && buffer == null
    {
      data := null;
      nulval := null;
      size := 0;
      FreeBuffer();
    }

    /**
     * `save`: each loaded cell is copied `strncpy`-style into a fresh
     * transfer buffer, whose rows are handed to the foreign CFITSIO writer
     * (`saved`); the buffer is released afterwards.
     */
    method Save() returns (saved: seq<seq<char>>)
      requires size > 0 ==> data != null && size <= data.Length
      modifies this`buffer
      ensures buffer == null
      ensures |saved| == size
      ensures forall i :: 0 <= i < size ==> saved[i] == Strncpy(data[i], width) + ['\0']
    {
      FreeBuffer();
      AllocBuffer();
      saved := [];
      if size > 0 {
        var i := 0;
        while i < size
          modifies buffer
          invariant 0 <= i <= size
          invariant forall a :: 0 <= a < i ==> Row(buffer, a) == Strncpy(data[a], width) + ['\0']
          invariant forall a :: i <= a < size ==> buffer[a, width] == '\0'
        {
          var text := Strncpy(data[i], width);
          var j := 0;
          while j < width
            modifies buffer
            invariant 0 <= j <= width
            invariant forall a :: 0 <= a < i ==> Row(buffer, a) == Strncpy(data[a], width) + ['\0']
            invariant forall a :: i <= a < size ==> buffer[a, width] == '\0'
            invariant forall c :: 0 <= c < j ==> buffer[i, c] == text[c]
          {
            buffer[i, j] := text[j];
            j := j + 1;
          }
          assert Row(buffer, i) == text + ['\0'];
          i := i + 1;
        }
        var b, n := buffer, size;
        saved := seq(n, a requires 0 <= a < n reads b => Row(b, a));
      }
      FreeBuffer();
    }

    /**
     * `copy_members`: the other column is fetched first when it has no data
     * (from the cells of its file); then the loaded size, a fresh copy of the
     * cells and a fresh `strncpy` copy of the NUL value are taken over.
     */
    method CopyMembers(other: StringColumn, otherCells: nat -> string)
      requires other != this
      requires other.data != null ==> other.data.Length == other.size
      modifies this, other
      ensures size == other.size
      ensures width == old(width) && number == old(number) && length == old(length) && repeat == old(repeat)
      ensures other.size > 0 ==> data != null && fresh(data) && other.data != null && data[..] == other.data[..]
      ensures other.size == 0 ==> data == old(data)
      ensures other.nulval != null ==> nulval != null && fresh(nulval) && nulval.Length == width + 1
      ensures other.nulval != null ==> nulval[..width] == Strncpy(other.nulval[..], width)
      ensures other.nulval == null ==> nulval == old(nulval)
      ensures other.nulval == old(other.nulval) && other.width == old(other.width)
      ensures other.nulval != null ==> other.nulval[..] == old(other.nulval[..])
      ensures old(other.data) != null ==> other.data == old(other.data) && other.size == old(other.size) && other.data[..] == old(other.data[..])
      ensures old(other.data) != null && other.size > 0 ==> data[..] == old(other.data[..])
      ensures old(other.data) == null ==> other.size == other.number * other.length
      ensures old(other.data) == null && other.size > 0 ==> other.data != null && other.data.Length == other.size && forall i :: 0 <= i < other.size ==> other.data[i] == Fit(otherCells(i), other.width)
    {
      if other.data == null {
        other.FetchData(otherCells);
      }
      size := other.size;
      if other.data != null && size > 0 {
        CopyData(other.data);
      }
      if other.nulval != null {
        nulval := NewCStrBuffer(other.nulval[..]);
      }
    }

    /** The data loop of `copy_members`: fresh data holding the same cells. */
    method CopyData(src: array<string>)
      requires size == src.Length > 0
      modifies this`data
      ensures data != null && fresh(data) && data[..] == src[..]
    {
      AllocData();
      var i := 0;
      while i < size
        modifies data
        invariant 0 <= i <= size
        invariant forall a :: 0 <= a < i ==> data[a] == src[a]
      {
        data[i] := src[i];
        i := i + 1;
      }
      assert data[..] == src[..];
    }
  }

  /**
   * Saving then reading the saved rows back: a cell comes back as its
   * string fitted to the width, and unchanged when it has no NUL and is at
   * most `width` long.
   */
  lemma SaveFetchRoundTrip(cell: string, w: nat)
    ensures Fit(CStr(Strncpy(cell, w) + ['\0']), w) == Fit(cell, w)
    ensures '\0' !in cell && |cell| <= w ==> CStr(Strncpy(cell, w) + ['\0']) == cell
  {
    StrncpyReadBack(cell, w, ['\0']);
    FitIdempotent(cell, w);
    if '\0' !in cell && |cell| <= w {
      FitOfShort(cell, w);
    }
  }

  /** The NUL value reads back as the given value fitted to the width. */
  lemma NulvalReadBack(value: string, w: nat)
    ensures CStr(Strncpy(value, w)) == Fit(value, w)
  {
    StrncpyReadBack(value, w, []);
    assert Strncpy(value, w) + [] == Strncpy(value, w);
  }
}
