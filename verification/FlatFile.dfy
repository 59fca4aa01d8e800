/** The flat-file database of src/db.c: a file of length-prefixed keys and contents, to which records are
    appended, and in which a record is deleted by overwriting the first byte of its key with 0. */
module FlatFile {
  import opened RegexSyntax

  const MAX_INT: nat := 0x7fff_ffff
  /** Bytes read for a length, at most. */
  const LINE_LIMIT: nat := 14

  // ----- decimal numbers -----

  /** What printf writes for %d. */
  function Decimal(n: nat): (s: seq<byte>)
    ensures s != []
  {
    if n < 10 then [48 + n] else Decimal(n / 10) + [48 + n % 10]
  }

  predicate IsDigit(c: byte) {
    48 <= c <= 57
  }

  /** What atoi makes of the digits in front, given the value of those before. */
  function Number(s: seq<byte>, value: nat): nat {
    if s == [] || !IsDigit(s[0]) then value else Number(s[1..], 10 * value + (s[0] - 48))
  }

  lemma {:induction false} DecimalNumber(n: nat, t: seq<byte>)
    ensures Number(Decimal(n) + t, 0) == Number(t, n)
  {
    if n < 10 {
      assert (Decimal(n) + t)[1..] == t;
    } else {
      var d: seq<byte> := [48 + n % 10];
      DecimalNumber(n / 10, d + t);
      assert Decimal(n) + t == Decimal(n / 10) + (d + t);
      assert (d + t)[1..] == t;
    }
  }

  lemma {:induction false} DecimalDigits(n: nat)
    ensures forall k :: 0 <= k < |Decimal(n)| ==> IsDigit(Decimal(n)[k])
  {
    if n >= 10 { DecimalDigits(n / 10); }
  }

  function Pow10(k: nat): (p: nat)
    ensures p >= 1
  {
    if k == 0 then 1 else 10 * Pow10(k - 1)
  }

  lemma {:induction false} DecimalShort(n: nat, k: nat)
    requires n < Pow10(k) && k > 0
    ensures |Decimal(n)| <= k
    decreases k
  {
    if n >= 10 { DecimalShort(n / 10, k - 1); }
  }

  lemma IntDecimal(n: nat)
    requires n <= MAX_INT
    ensures |Decimal(n)| < LINE_LIMIT
  {
    assert Pow10(4) == 10000 && Pow10(7) == 1000 * Pow10(4) && Pow10(10) == 1000 * Pow10(7);
    DecimalShort(n, 10);
  }

  /** The digits s, read in base ten. */
  function Reading(s: seq<byte>): int {
    if s == [] then 0 else 10 * Reading(s[..|s| - 1]) + (s[|s| - 1] as int - 48)
  }

  lemma {:induction false} DecimalReads(n: nat)
    ensures Reading(Decimal(n)) == n && (n > 0 ==> Decimal(n)[0] != 48)
  {
    var s := Decimal(n);
    if n >= 10 {
      DecimalReads(n / 10);
      assert s[..|s| - 1] == Decimal(n / 10);
    } else {
      assert s[..0] == [];
    }
  }

  // ----- the file as bytes -----

  /** A stretch of bytes behind its length. */
  function Block(s: seq<byte>): seq<byte> {
    Decimal(|s|) + [NEWLINE] + s
  }

  /** In front of the bytes stand their number in decimal digits, without leading zeros, and a newline. */
  lemma BlockText(s: seq<byte>)
    ensures |Block(s)| >= |s| + 2
    ensures var n := |Block(s)| - |s| - 1;
      && (forall k :: 0 <= k < n ==> 48 <= Block(s)[k] <= 57) && (n > 1 ==> Block(s)[0] != 48)
      && Reading(Block(s)[..n]) == |s| && Block(s)[n] == 10 && Block(s)[n + 1..] == s
  {
    hide Decimal;
    DecimalDigits(|s|);
    DecimalReads(|s|);
    DecimalOne();
    assert Block(s)[..|Decimal(|s|)|] == Decimal(|s|);
  }

  lemma DecimalOne()
    ensures Decimal(0) == [48]
  {
  }

  datatype Record = Record(key: seq<byte>, content: seq<byte>)

  function Bytes(rs: seq<Record>): seq<byte> {
    if rs == [] then [] else Block(rs[0].key) + Block(rs[0].content) + Bytes(rs[1..])
  }

  lemma BytesCons(rs: seq<Record>)
    ensures rs == [] ==> Bytes(rs) == []
    ensures rs != [] ==> Bytes(rs) == Block(rs[0].key) + (Block(rs[0].content) + Bytes(rs[1..]))
  {
    hide Block;
    if rs != [] { Associates(Block(rs[0].key), Block(rs[0].content), Bytes(rs[1..])); }
  }

  lemma Associates(a: seq<byte>, b: seq<byte>, c: seq<byte>)
    ensures a + b + c == a + (b + c)
  {
  }

  lemma {:induction false} BytesAppend(rs: seq<Record>, ts: seq<Record>)
    ensures Bytes(rs + ts) == Bytes(rs) + Bytes(ts)
  {
    hide *;
    BytesCons(rs);
    if rs == [] {
      assert rs + ts == ts;
    } else {
      BytesAppend(rs[1..], ts);
      BytesCons(rs + ts);
      assert (rs + ts)[1..] == rs[1..] + ts;
      Associates(Block(rs[0].content), Bytes(rs[1..]), Bytes(ts));
      Associates(Block(rs[0].key), Block(rs[0].content) + Bytes(rs[1..]), Bytes(ts));
    }
  }

  lemma BytesFrom(rs: seq<Record>, i: nat)
    requires i <= |rs|
    ensures Bytes(rs) == Bytes(rs[..i]) + Bytes(rs[i..])
    ensures i < |rs| ==> Bytes(rs[i..]) == Block(rs[i].key) + (Block(rs[i].content) + Bytes(rs[i + 1..]))
    ensures i == |rs| ==> Bytes(rs[i..]) == []
  {
    hide *;
    BytesAppend(rs[..i], rs[i..]);
    assert rs[..i] + rs[i..] == rs;
    BytesCons(rs[i..]);
    if i < |rs| { assert rs[i..][1..] == rs[i + 1..]; }
  }

  /** How many bytes fgets takes: up to a newline, and no more than `limit`. */
  function LineLength(s: seq<byte>, limit: nat): (n: nat)
    ensures n <= |s| && n <= limit
  {
    if s == [] || limit == 0 then 0
    else if s[0] == NEWLINE then 1
    else 1 + LineLength(s[1..], limit - 1)
  }

  /** One byte of a line. */
  lemma LineStep(data: seq<byte>, start: nat, pos: nat, limit: nat)
    requires start <= pos <= |data|
    ensures LineLength(data[pos..], limit) ==
      if pos == |data| || limit == 0 then 0
      else if data[pos] == NEWLINE then 1
      else 1 + LineLength(data[pos + 1..], limit - 1)
    ensures pos < |data| ==> data[start..pos + 1] == data[start..pos] + [data[pos]]
    ensures data[start..][..pos - start] == data[start..pos]
  {
    if pos < |data| { assert data[pos..][1..] == data[pos + 1..]; }
  }

  lemma {:induction false} LineOf(d: seq<byte>, rest: seq<byte>, limit: nat)
    requires |d| < limit && forall k :: 0 <= k < |d| ==> d[k] != NEWLINE
    ensures LineLength(d + [NEWLINE] + rest, limit) == |d| + 1
  {
    var s := d + [NEWLINE] + rest;
    if d != [] {
      LineOf(d[1..], rest, limit - 1);
      assert s[1..] == d[1..] + [NEWLINE] + rest;
    }
  }

  /** The length line of a block is read back. */
  lemma BlockLine(s: seq<byte>, rest: seq<byte>)
    requires |s| <= MAX_INT
    ensures var t, n := Block(s) + rest, LineLength(Block(s) + rest, LINE_LIMIT);
            0 < n <= |t| && Number(t[..n], 0) == |s| && t[n..] == s + rest && t[n - 1] == NEWLINE
  {
    var d := Decimal(|s|);
    DecimalDigits(|s|);
    IntDecimal(|s|);
    LineOf(d, s + rest, LINE_LIMIT);
    var t := Block(s) + rest;
    assert t == d + [NEWLINE] + (s + rest);
    assert t[..|d| + 1] == d + [NEWLINE];
    DecimalNumber(|s|, [NEWLINE]);
  }

  class File {
    var data: seq<byte>
    var pos: nat
    var eof: bool

    predicate Open()
      reads this
    {
      pos <= |data|
    }

    constructor (data: seq<byte>)
      ensures this.data == data && pos == 0 && !eof
    {
      this.data, pos, eof := data, 0, false;
    }

    method Seek(p: nat)
      requires p <= |data|
      modifies `pos, `eof
      ensures pos == p && !eof
    {
      pos, eof := p, false;
    }

    method SeekEnd()
      modifies `pos, `eof
      ensures pos == |data| && !eof
    {
      pos, eof := |data|, false;
    }

    /** fgets with room for LINE_LIMIT bytes; ok tells whether there was any. */
    method Fgets() returns (ok: bool, line: seq<byte>)
      requires Open()
      modifies `pos, `eof
      ensures Open() && var n := LineLength(old(data[pos..]), LINE_LIMIT);
              && ok == (n > 0) && pos == old(pos) + n && line == old(data[pos..])[..n]
      ensures !ok ==> eof
      ensures ok && line[|line| - 1] == NEWLINE ==> eof == old(eof)
    {
      hide LineLength;
      line := [];
      ghost var rest := data[pos..];
      ghost var start := pos;
      LineStep(data, start, pos, LINE_LIMIT);
      while |line| < LINE_LIMIT && pos < |data|
        modifies `pos
        invariant start <= pos <= |data| && line == data[start..pos] && |line| <= LINE_LIMIT
        invariant forall k :: 0 <= k < |line| ==> line[k] != NEWLINE
        invariant LineLength(rest, LINE_LIMIT) == |line| + LineLength(data[pos..], LINE_LIMIT - |line|)
        decreases |data| - pos
      {
        var c := data[pos];
        LineStep(data, start, pos, LINE_LIMIT - |line|);
        line, pos := line + [c], pos + 1;
        if c == NEWLINE {
          return true, line;
        }
      }
      LineStep(data, start, pos, LINE_LIMIT - |line|);
      if |line| < LINE_LIMIT { eof := true; }
      ok := line != [];
    }

    method Read(n: nat) returns (s: seq<byte>)
      requires Open()
      modifies `pos
      ensures Open() && pos == old(pos) + |s| && |s| <= n && s == data[old(pos)..pos]
      ensures |s| < n ==> pos == |data|
    {
      var end := if pos + n <= |data| then pos + n else |data|;
      s := data[pos..end];
      pos := end;
    }

    method Write(s: seq<byte>)
      requires Open()
      modifies `data, `pos
      ensures Open() && pos == old(pos) + |s|
      ensures data == old(data)[..old(pos)] + s + (if pos <= |old(data)| then old(data)[pos..] else [])
    {
      data := data[..pos] + s + (if pos + |s| <= |data| then data[pos + |s|..] else []);
      pos := pos + |s|;
    }

    /** fgets and atoi: the length of the block that follows, if there is one. */
    method ReadLength(ghost s: seq<byte>, ghost rest: seq<byte>) returns (ok: bool, num: nat)
      requires Open() && |s| <= MAX_INT
      requires data[pos..] == [] || data[pos..] == Block(s) + rest
      modifies `pos, `eof
      ensures Open() && ok == (old(data[pos..]) != [])
      ensures ok ==> num == |s| && data[pos..] == s + rest && eof == old(eof)
      ensures !ok ==> pos == old(pos)
    {
      BlockLine(s, rest);
      ghost var before, start := data[pos..], pos;
      var line;
      ok, line := Fgets();
      num := Number(line, 0);
    }

    /** A length, the place behind it, and that many bytes. */
    method ReadBlock(ghost s: seq<byte>, ghost rest: seq<byte>) returns (ok: bool, at: nat, buf: seq<byte>)
      requires Open() && |s| <= MAX_INT
      requires data[pos..] == [] || data[pos..] == Block(s) + rest
      modifies `pos, `eof
      ensures Open() && ok == (old(data[pos..]) != [])
      ensures at <= pos <= |data|
      ensures ok ==> buf == s && data[at..] == s + rest && data[pos..] == rest && eof == old(eof)
      ensures !ok ==> pos == old(pos)
    {
      hide Block;
      var num;
      ok, num := ReadLength(s, rest);
      at, buf := pos, [];
      if ok {
        buf := Read(num);
        Taken(data, at, pos, buf, s, rest);
      }
    }
  }

  // ----- records -----

  /** A record whose key has been wiped begins its key with 0. */
  predicate Live(r: Record) {
    r.key != [] && r.key[0] != 0
  }

  predicate IsText(s: seq<byte>) {
    |s| < MAX_INT && forall k :: 0 <= k < |s| ==> s[k] != 0
  }

  predicate IsKey(key: seq<byte>) {
    key != [] && IsText(key)
  }

  ghost predicate Framed(rs: seq<Record>) {
    forall i :: 0 <= i < |rs| ==> rs[i].key != [] && |rs[i].key| <= MAX_INT && |rs[i].content| <= MAX_INT
  }

  /** The first record that has the key, or the number of records. */
  function Find(rs: seq<Record>, key: seq<byte>): (i: nat)
    ensures i <= |rs| && (i < |rs| ==> rs[i].key == key)
    ensures forall j :: 0 <= j < i ==> rs[j].key != key
  {
    if rs == [] then 0 else if rs[0].key == key then 0 else 1 + Find(rs[1..], key)
  }

  function Killed(r: Record): Record
    requires r.key != []
  {
    Record([0] + r.key[1..], r.content)
  }

  /** The first record that has the key is wiped. */
  function Wiped(rs: seq<Record>, key: seq<byte>): seq<Record>
    requires key != []
  {
    var i := Find(rs, key);
    if i == |rs| then rs else rs[i := Killed(rs[i])]
  }

  lemma FoundAt(rs: seq<Record>, key: seq<byte>, i: nat)
    requires i <= |rs| && forall j :: 0 <= j < i ==> rs[j].key != key
    ensures i == |rs| || rs[i].key == key ==> Find(rs, key) == i
  {
  }

  /** The byte in front of which p lies is the first of the key of record i. */
  lemma WipesByte(rs: seq<Record>, i: nat, data: seq<byte>, p: nat)
    requires i < |rs| && rs[i].key != [] && data == Bytes(rs) && p <= |data|
    requires data[p..] == rs[i].key + (Block(rs[i].content) + Bytes(rs[i + 1..]))
    ensures p < |data| && data[..p] + [0] + data[p + 1..] == Bytes(rs[i := Killed(rs[i])])
  {
    hide Bytes, Block;
    var r, k := rs[i], Killed(rs[i]);
    var tail := Block(r.content) + Bytes(rs[i + 1..]);
    var ts := rs[i := k];
    BytesFrom(rs, i);
    BytesFrom(ts, i);
    assert ts[..i] == rs[..i] && ts[i + 1..] == rs[i + 1..];
    BlockIs(r.key);
    BlockIs(k.key);
    var head := Bytes(rs[..i]) + (Decimal(|r.key|) + [NEWLINE]);
    assert data == head + (r.key + tail);
    assert |head| == p && data[..p] == head;
    assert data[p + 1..] == data[p..][1..] == r.key[1..] + tail;
    assert Bytes(ts) == head + (k.key + tail);
  }

  lemma BlockIs(s: seq<byte>)
    ensures Block(s) == Decimal(|s|) + [NEWLINE] + s
  {
  }

  class Database {
    const file: File
    ghost var records: seq<Record>
    /** Where the key that was enumerated last ends: a static variable of the source. */
    var keyPos: nat

    ghost predicate Valid()
      reads this, file
    {
      file.Open() && file.data == Bytes(records) && Framed(records)
    }

    constructor ()
      ensures Valid() && records == [] && fresh(file)
    {
      file := new File([]);
      records, keyPos := [], 0;
    }

    /** What is known of the file when it stands in front of record i. */
    lemma Here(rs: seq<Record>, i: nat)
      requires Framed(rs) && i <= |rs|
      ensures Bytes(rs[i..]) == [] <==> i == |rs|
      ensures i < |rs| ==>
        && Bytes(rs[i..]) == Block(rs[i].key) + (Block(rs[i].content) + Bytes(rs[i + 1..]))
        && Block(rs[i].content) + Bytes(rs[i + 1..]) != []
        && rs[i].key != [] && |rs[i].key| <= MAX_INT && |rs[i].content| <= MAX_INT
    {
      hide Bytes, Block;
      BytesFrom(rs, i);
      if i < |rs| {
        NotEmptyBlock(rs[i].key, Block(rs[i].content) + Bytes(rs[i + 1..]));
        NotEmptyBlock(rs[i].content, Bytes(rs[i + 1..]));
      }
    }

    /** flatfilewipekey: the first record that has the key is wiped; afterwards the file is at its end. */
    method WipeKey(key: seq<byte>)
      requires Valid() && key != []
      modifies `records, file
      ensures Valid() && records == Wiped(old(records), key) && file.pos == |file.data|
    {
      hide *;
      ValidIs();
      ghost var rs, i := records, 0;
      file.Seek(0);
      assert file.data[0..] == file.data && rs[0..] == rs;
      ValidIs();
      AtIntro(rs, 0);
      while !file.eof
        modifies `records, file
        invariant ValidAt(rs, i) && !file.eof && records == rs && i <= |rs|
        invariant forall j :: 0 <= j < i ==> rs[j].key != key
        decreases |rs| - i
      {
        At(rs, i);
        Here(rs, i);
        ghost var c, rest := if i < |rs| then rs[i].content else [], if i < |rs| then Bytes(rs[i + 1..]) else [];
        var ok, at, buf := file.ReadBlock(if i < |rs| then rs[i].key else [], Block(c) + rest);
        if !ok {
          AtIntro(rs, i);
          break;
        }
        if |key| == |buf| && buf == key {
          FoundAt(rs, key, i);
          WipesByte(rs, i, file.data, at);
          file.Seek(at);
          file.Write([0]);
          file.SeekEnd();
          records := Wiped(rs, key);
          WipedAt(rs, key, i);
          ValidIs();
          return;
        }
        ok, at, buf := file.ReadBlock(c, rest);
        if !ok { break; }
        i := i + 1;
        AtIntro(rs, i);
      }
      At(rs, i);
      Here(rs, i);
      FoundAt(rs, key, i);
      WipedAt(rs, key, i);
      AtEnd(file.data, file.pos);
      ValidIs();
    }

    /** flatfilefindkey: whether a record has the key; if so, the file then stands at its content. */
    method FindKey(key: seq<byte>) returns (found: bool)
      requires Valid() && key != []
      modifies file`pos, file`eof
      ensures Valid() && found == (Find(records, key) < |records|)
      ensures found ==> Find(records, key) < |records| && AtContent(records, Find(records, key))
    {
      hide *;
      ValidIs();
      ghost var rs, i := records, 0;
      file.Seek(0);
      assert file.data[0..] == file.data && rs[0..] == rs;
      ValidIs();
      AtIntro(rs, 0);
      while !file.eof
        modifies file`pos, file`eof
        invariant ValidAt(rs, i) && !file.eof && i <= |rs|
        invariant forall j :: 0 <= j < i ==> rs[j].key != key
        decreases |rs| - i
      {
        At(rs, i);
        Here(rs, i);
        ghost var c, rest := if i < |rs| then rs[i].content else [], if i < |rs| then Bytes(rs[i + 1..]) else [];
        var ok, at, buf := file.ReadBlock(if i < |rs| then rs[i].key else [], Block(c) + rest);
        if !ok {
          AtIntro(rs, i);
          break;
        }
        if |key| == |buf| && buf == key {
          FoundAt(rs, key, i);
          ContentIntro(rs, i);
          ValidIs();
          return true;
        }
        ok, at, buf := file.ReadBlock(c, rest);
        if !ok { break; }
        i := i + 1;
        AtIntro(rs, i);
      }
      At(rs, i);
      Here(rs, i);
      FoundAt(rs, key, i);
      ValidIs();
      return false;
    }

    /** The content of record i comes next. */
    ghost predicate AtContent(rs: seq<Record>, i: nat)
      requires i < |rs|
      reads file
    {
      file.pos <= |file.data| && file.data[file.pos..] == Block(rs[i].content) + Bytes(rs[i + 1..])
    }

    lemma ContentIntro(rs: seq<Record>, i: nat)
      requires i < |rs| && file.pos <= |file.data| && file.data[file.pos..] == Block(rs[i].content) + Bytes(rs[i + 1..])
      ensures AtContent(rs, i)
    {
      hide Block, Bytes;
    }

    lemma ContentParts(rs: seq<Record>, i: nat)
      requires i < |rs| && AtContent(rs, i)
      ensures file.pos <= |file.data| && file.data[file.pos..] == Block(rs[i].content) + Bytes(rs[i + 1..])
    {
      hide Block, Bytes;
    }

    /** The writing of a record at the end of the file. */
    method Append(key: seq<byte>, content: seq<byte>)
      requires Valid() && file.pos == |file.data| && key != [] && |key| <= MAX_INT && |content| <= MAX_INT
      modifies `records, file
      ensures Valid() && records == old(records) + [Record(key, content)]
    {
      hide *;
      ValidIs();
      ghost var data := file.data;
      file.Write(Decimal(|key|) + [NEWLINE]);
      file.Write(key);
      file.Write(Decimal(|content|) + [NEWLINE]);
      file.Write(content);
      Appended(records, Record(key, content), data, file.data);
      records := records + [Record(key, content)];
      ValidIs();
    }

    /** _dbmInsert: the record is appended, whether the key is there or not. */
    method Insert(key: seq<byte>, content: seq<byte>)
      requires Valid() && IsKey(key) && IsText(content)
      modifies `records, file
      ensures Valid() && records == old(records) + [Record(key, content)]
    {
      hide *;
      ValidIs();
      KeyFits(key, content);
      file.SeekEnd();
      ValidIs();
      Append(key, content);
    }

    /** _dbmReplace: here the NUL of the content is written too. */
    method Replace(key: seq<byte>, content: seq<byte>)
      requires Valid() && IsKey(key) && IsText(content)
      modifies `records, file
      ensures Valid() && records == Wiped(old(records), key) + [Record(key, content + [0])]
    {
      hide *;
      KeyFits(key, content);
      WipeKey(key);
      Append(key, content + [0]);
    }

    /** _dbmDelete. */
    method Delete(key: seq<byte>)
      requires Valid() && IsKey(key)
      modifies `records, file
      ensures Valid() && records == Wiped(old(records), key)
    {
      hide *;
      KeyIs(key);
      WipeKey(key);
    }

    /** What _dbmFetch reads: the content of the record with the key, up to a NUL. */
    method Fetch(key: seq<byte>) returns (found: bool, text: seq<byte>)
      requires Valid() && IsKey(key)
      modifies file`pos, file`eof
      ensures Valid() && found == (key in Map(records)) && (found ==> text == Map(records)[key])
    {
      hide *;
      KeyIs(key);
      text := [];
      found := FindKey(key);
      MapFinds(records, key);
      ValidIs();
      if found {
        ghost var i := Find(records, key);
        ContentParts(records, i);
        Here(records, i);
        var ok, at, buf := file.ReadBlock(records[i].content, Bytes(records[i + 1..]));
        text := Text(buf);
      }
      ValidIs();
    }

    /** flatfilefirstkey: the first key that has not been wiped. */
    method FirstKey() returns (found: bool, key: seq<byte>)
      requires Valid()
      modifies `keyPos, file`pos, file`eof
      ensures Valid() && var k := NextLive(records, 0);
              && found == (k < |records|)
              && (if found then key == records[k].key && keyPos == KeyEnd(records, k) else keyPos == old(keyPos))
    {
      hide *;
      ValidIs();
      ghost var rs, i := records, 0;
      file.Seek(0);
      assert file.data[0..] == file.data && rs[0..] == rs;
      ValidIs();
      AtIntro(rs, 0);
      LiveFrom(rs, 0);
      while !file.eof
        modifies `keyPos, file`pos, file`eof
        invariant ValidAt(rs, i) && !file.eof && i <= |rs| && keyPos == old(keyPos)
          && NextLive(rs, 0) == NextLive(rs, i)
        decreases |rs| - i
      {
        At(rs, i);
        Here(rs, i);
        LiveFrom(rs, i);
        ghost var c, rest := if i < |rs| then rs[i].content else [], if i < |rs| then Bytes(rs[i + 1..]) else [];
        var ok, at, buf := file.ReadBlock(if i < |rs| then rs[i].key else [], Block(c) + rest);
        if !ok {
          AtIntro(rs, i);
          break;
        }
        if buf[0] != 0 {
          keyPos := file.pos;
          KeyEndIs(rs, i, file.data, file.pos);
          ValidIs();
          return true, buf;
        }
        ok, at, buf := file.ReadBlock(c, rest);
        if !ok { break; }
        i := i + 1;
        AtIntro(rs, i);
      }
      At(rs, i);
      Here(rs, i);
      LiveFrom(rs, i);
      ValidIs();
      return false, [];
    }

    /** flatfilenextkey: the next key behind that of record k, from which the enumeration goes on. */
    method NextKey(ghost k: nat) returns (found: bool, key: seq<byte>)
      requires Valid() && k < |records| && keyPos == KeyEnd(records, k)
      modifies `keyPos, file`pos, file`eof
      ensures Valid() && var j := NextLive(records, k + 1);
              && found == (j < |records|)
              && (if found then key == records[j].key && keyPos == KeyEnd(records, j) else keyPos == old(keyPos))
    {
      hide *;
      ValidIs();
      ghost var rs, i := records, k;
      KeyEndAt(rs, k);
      file.Seek(keyPos);
      ContentIntro(rs, k);
      ValidIs();
      while !file.eof
        modifies `keyPos, file`pos, file`eof
        invariant file.data == Bytes(rs) && Framed(rs) && i < |rs| && AtContent(rs, i) && !file.eof
          && file.pos <= |file.data|
        invariant keyPos == old(keyPos) && NextLive(rs, k + 1) == NextLive(rs, i + 1)
        decreases |rs| - i
      {
        ContentParts(rs, i);
        Here(rs, i);
        Here(rs, i + 1);
        LiveFrom(rs, i + 1);
        ValidIs();
        var ok, at, buf := file.ReadBlock(rs[i].content, Bytes(rs[i + 1..]));
        if !ok { break; }
        ghost var r := if i + 1 < |rs| then rs[i + 1] else Record([], []);
        ghost var rest := if i + 1 < |rs| then Bytes(rs[i + 2..]) else [];
        ok, at, buf := file.ReadBlock(r.key, Block(r.content) + rest);
        if !ok {
          LiveFrom(rs, |rs|);
          ValidIs();
          return false, [];
        }
        i := i + 1;
        if buf[0] != 0 {
          keyPos := file.pos;
          KeyEndIs(rs, i, file.data, file.pos);
          ValidIs();
          return true, buf;
        }
        ContentIntro(rs, i);
      }
      assert false;
    }

    ghost predicate ValidAt(rs: seq<Record>, i: nat)
      reads this, file
    {
      file.pos <= |file.data| && file.data == Bytes(rs) && Framed(rs) && i <= |rs|
        && file.data[file.pos..] == Bytes(rs[i..])
    }

    lemma At(rs: seq<Record>, i: nat)
      requires ValidAt(rs, i)
      ensures file.Open() && file.pos <= |file.data| && file.data == Bytes(rs) && Framed(rs) && i <= |rs|
      ensures file.data[file.pos..] == Bytes(rs[i..])
    {
      hide Bytes, Framed;
    }

    lemma AtIntro(rs: seq<Record>, i: nat)
      requires file.Open() && file.data == Bytes(rs) && Framed(rs) && i <= |rs|
        && file.data[file.pos..] == Bytes(rs[i..])
      ensures ValidAt(rs, i)
    {
      hide Bytes, Framed;
    }

    lemma ValidIs()
      ensures Valid() <==> file.pos <= |file.data| && file.data == Bytes(records) && Framed(records)
      ensures file.Open() <==> file.pos <= |file.data|
    {
      hide Bytes, Framed;
    }
  }

  /** What wiping does to the records. */
  lemma WipedAt(rs: seq<Record>, key: seq<byte>, i: nat)
    requires Framed(rs) && key != [] && i == Find(rs, key)
    ensures i == |rs| ==> Wiped(rs, key) == rs
    ensures i < |rs| ==> rs[i].key != [] && Wiped(rs, key) == rs[i := Killed(rs[i])]
    ensures Framed(Wiped(rs, key))
  {
    hide Find;
  }

  lemma KeyIs(key: seq<byte>)
    requires IsKey(key)
    ensures key != [] && |key| <= MAX_INT
  {
  }

  lemma KeyFits(key: seq<byte>, content: seq<byte>)
    requires IsKey(key) && IsText(content)
    ensures key != [] && |key| <= MAX_INT && |content| < MAX_INT && |content + [0]| <= MAX_INT
  {
  }

  lemma Appended(rs: seq<Record>, r: Record, data: seq<byte>, data': seq<byte>)
    requires data == Bytes(rs) && Framed(rs) && r.key != [] && |r.key| <= MAX_INT && |r.content| <= MAX_INT
    requires data' == data + (Decimal(|r.key|) + [NEWLINE]) + r.key + (Decimal(|r.content|) + [NEWLINE]) + r.content
    ensures data' == Bytes(rs + [r]) && Framed(rs + [r])
  {
    hide Decimal, Bytes, Block;
    BytesAppend(rs, [r]);
    BytesCons([r]);
    BytesCons([]);
    BlockIs(r.key);
    BlockIs(r.content);
    assert [r][1..] == [];
    assert data' == data + (Block(r.key) + (Block(r.content) + []));
  }

  // ----- enumeration -----

  /** The first record from i on that has not been wiped, or the number of records. */
  function NextLive(rs: seq<Record>, i: nat): (k: nat)
    requires i <= |rs|
    ensures i <= k <= |rs| && (k < |rs| ==> Live(rs[k])) && forall j :: i <= j < k ==> !Live(rs[j])
    decreases |rs| - i
  {
    if i == |rs| || Live(rs[i]) then i else NextLive(rs, i + 1)
  }

  lemma LiveFrom(rs: seq<Record>, i: nat)
    requires i <= |rs|
    ensures NextLive(rs, i) == if i == |rs| || (rs[i].key != [] && rs[i].key[0] != 0) then i else NextLive(rs, i + 1)
  {
  }

  /** The offset behind the key of record k. */
  function KeyEnd(rs: seq<Record>, k: nat): nat
    requires k < |rs|
  {
    |Bytes(rs[..k])| + |Block(rs[k].key)|
  }

  lemma KeyEndAt(rs: seq<Record>, k: nat)
    requires k < |rs|
    ensures KeyEnd(rs, k) <= |Bytes(rs)| && Bytes(rs)[KeyEnd(rs, k)..] == Block(rs[k].content) + Bytes(rs[k + 1..])
  {
    hide Bytes, Block;
    BytesFrom(rs, k);
    var a, b, c := Bytes(rs[..k]), Block(rs[k].key), Block(rs[k].content) + Bytes(rs[k + 1..]);
    assert Bytes(rs) == a + b + c;
    assert (a + b + c)[|a| + |b|..] == c;
  }

  lemma KeyEndIs(rs: seq<Record>, k: nat, data: seq<byte>, pos: nat)
    requires k < |rs| && data == Bytes(rs) && pos <= |data| && data[pos..] == Block(rs[k].content) + Bytes(rs[k + 1..])
    ensures pos == KeyEnd(rs, k)
  {
    hide Bytes, Block;
    KeyEndAt(rs, k);
    assert |data[pos..]| == |data| - pos && |data[KeyEnd(rs, k)..]| == |data| - KeyEnd(rs, k);
  }

  /** The place where an enumeration stands does not move when records are wiped or appended. */
  lemma KeyEndStays(rs: seq<Record>, k: nat, key: seq<byte>, more: seq<Record>)
    requires k < |rs| && key != [] && Framed(rs)
    ensures KeyEnd(rs + more, k) == KeyEnd(rs, k) && k < |Wiped(rs, key)| && KeyEnd(Wiped(rs, key), k) == KeyEnd(rs, k)
  {
    hide Bytes, Block, Find;
    assert (rs + more)[..k] == rs[..k];
    var i := Find(rs, key);
    WipedAt(rs, key, i);
    if i < |rs| {
      BlockIs(rs[i].key);
      BlockIs(Killed(rs[i]).key);
      if i < k {
        BytesFrom(rs[..k], i);
        BytesFrom(Wiped(rs, key)[..k], i);
        assert Wiped(rs, key)[..k][..i] == rs[..k][..i] && Wiped(rs, key)[..k][i + 1..] == rs[..k][i + 1..];
      } else {
        assert Wiped(rs, key)[..k] == rs[..k];
      }
    }
  }

  /** The keys that an enumeration from record i on gives. */
  function Keys(rs: seq<Record>, i: nat): seq<seq<byte>>
    requires i <= |rs|
    decreases |rs| - i
  {
    var k := NextLive(rs, i);
    if k == |rs| then [] else [rs[k].key] + Keys(rs, k + 1)
  }

  // ----- the database as a map -----

  /** A C string: what stands in front of the first NUL. */
  function Text(s: seq<byte>): seq<byte> {
    if s == [] || s[0] == 0 then [] else [s[0]] + Text(s[1..])
  }

  lemma {:induction false} TextOf(s: seq<byte>)
    requires IsText(s)
    ensures Text(s) == s && Text(s + [0]) == s
  {
    if s != [] {
      TextOf(s[1..]);
      assert (s + [0])[1..] == s[1..] + [0];
    }
  }

  /** What a search finds for each key: of several records the first counts. */
  function Map(rs: seq<Record>): map<seq<byte>, seq<byte>> {
    if rs == [] then map[]
    else
      var m := Map(rs[1..]);
      if Live(rs[0]) then m[rs[0].key := Text(rs[0].content)] else m
  }

  lemma {:induction false} MapFinds(rs: seq<Record>, key: seq<byte>)
    requires IsKey(key)
    ensures key in Map(rs) <==> Find(rs, key) < |rs|
    ensures key in Map(rs) ==> Map(rs)[key] == Text(rs[Find(rs, key)].content)
  {
    if rs != [] { MapFinds(rs[1..], key); }
  }

  lemma NotEmptyBlock(s: seq<byte>, rest: seq<byte>)
    ensures Block(s) + rest != []
  {
  }

  /** What Read takes when s lies in front of rest. */
  lemma Taken(data: seq<byte>, from: nat, to: nat, buf: seq<byte>, s: seq<byte>, rest: seq<byte>)
    requires from <= to <= |data| && data[from..] == s + rest && buf == data[from..to] && |buf| <= |s|
    requires |buf| < |s| ==> to == |data|
    ensures buf == s && data[to..] == rest
  {
    assert |buf| == to - from;
    assert data[from..][..|buf|] == buf;
    assert data[from..][|buf|..] == data[to..];
  }

  lemma AtEnd(data: seq<byte>, pos: nat)
    requires pos <= |data| && data[pos..] == []
    ensures pos == |data|
  {
    assert |data[pos..]| == |data| - pos;
  }

  // ----- the file is unambiguous -----

  lemma BlockSplits(s: seq<byte>, rest: seq<byte>, s': seq<byte>, rest': seq<byte>)
    requires |s| <= MAX_INT && |s'| <= MAX_INT && Block(s) + rest == Block(s') + rest'
    ensures s == s' && rest == rest'
  {
    hide Block;
    BlockLine(s, rest);
    BlockLine(s', rest');
    assert s + rest == s' + rest' && |s| == |s'|;
    assert s == (s + rest)[..|s|] && s' == (s' + rest')[..|s|];
    assert rest == (s + rest)[|s|..] && rest' == (s' + rest')[|s|..];
  }

  /** A file is the record of one sequence of records only. */
  lemma {:induction false} Unambiguous(rs: seq<Record>, ts: seq<Record>)
    requires Framed(rs) && Framed(ts) && Bytes(rs) == Bytes(ts)
    ensures rs == ts
  {
    hide Block, Bytes;
    BytesCons(rs);
    BytesCons(ts);
    if rs != [] { NotEmptyBlock(rs[0].key, Block(rs[0].content) + Bytes(rs[1..])); }
    if ts != [] { NotEmptyBlock(ts[0].key, Block(ts[0].content) + Bytes(ts[1..])); }
    if rs != [] && ts != [] {
      BlockSplits(rs[0].key, Block(rs[0].content) + Bytes(rs[1..]), ts[0].key, Block(ts[0].content) + Bytes(ts[1..]));
      BlockSplits(rs[0].content, Bytes(rs[1..]), ts[0].content, Bytes(ts[1..]));
      Unambiguous(rs[1..], ts[1..]);
      assert rs == [rs[0]] + rs[1..] && ts == [ts[0]] + ts[1..];
    }
  }

  // ----- one live record for each key -----

  /** The live records that have the key. */
  function Count(rs: seq<Record>, key: seq<byte>): nat {
    if rs == [] then 0 else (if Live(rs[0]) && rs[0].key == key then 1 else 0) + Count(rs[1..], key)
  }

  ghost predicate Once(rs: seq<Record>) {
    forall key :: IsKey(key) ==> Count(rs, key) <= 1
  }

  lemma {:induction false} CountMap(rs: seq<Record>, key: seq<byte>)
    requires IsKey(key)
    ensures key in Map(rs) <==> Count(rs, key) > 0
  {
    if rs != [] { CountMap(rs[1..], key); }
  }

  lemma {:induction false} CountAppend(rs: seq<Record>, r: Record, key: seq<byte>)
    ensures Count(rs + [r], key) == Count(rs, key) + if Live(r) && r.key == key then 1 else 0
  {
    if rs == [] {
      assert rs + [r] == [r] && [r][1..] == [];
    } else {
      CountAppend(rs[1..], r, key);
      assert (rs + [r])[1..] == rs[1..] + [r];
    }
  }

  lemma {:induction false} MapAppend(rs: seq<Record>, r: Record)
    ensures Map(rs + [r]) == if Live(r) && r.key !in Map(rs) then Map(rs)[r.key := Text(r.content)] else Map(rs)
  {
    if rs == [] {
      assert rs + [r] == [r] && [r][1..] == [];
    } else {
      MapAppend(rs[1..], r);
      assert (rs + [r])[1..] == rs[1..] + [r];
    }
  }

  /** Inserting keeps one record for each key exactly when the key was not there. */
  lemma InsertOnce(rs: seq<Record>, key: seq<byte>, content: seq<byte>)
    requires Once(rs) && IsKey(key)
    ensures Once(rs + [Record(key, content)]) <==> key !in Map(rs)
  {
    var r := Record(key, content);
    CountMap(rs, key);
    CountAppend(rs, r, key);
    forall k | IsKey(k) && k != key ensures Count(rs + [r], k) <= 1 { CountAppend(rs, r, k); }
  }

  lemma {:induction false} WipedCount(rs: seq<Record>, key: seq<byte>, k: seq<byte>)
    requires IsKey(key) && IsKey(k)
    ensures Count(Wiped(rs, key), k) == if k == key && Count(rs, key) > 0 then Count(rs, key) - 1 else Count(rs, k)
  {
    if rs != [] {
      var rest := rs[1..];
      if rs[0].key == key {
        assert Wiped(rs, key) == [Killed(rs[0])] + rest;
        assert ([Killed(rs[0])] + rest)[1..] == rest;
      } else {
        WipedCount(rest, key, k);
        WipedCons(rs, key);
      }
    }
  }

  lemma WipedCons(rs: seq<Record>, key: seq<byte>)
    requires rs != [] && key != [] && rs[0].key != key
    ensures Wiped(rs, key) == [rs[0]] + Wiped(rs[1..], key) && Wiped(rs, key)[1..] == Wiped(rs[1..], key)
  {
  }

  /** The other keys keep their contents. */
  lemma {:induction false} WipedOthers(rs: seq<Record>, key: seq<byte>, k: seq<byte>)
    requires IsKey(key) && IsKey(k) && k != key
    ensures k in Map(Wiped(rs, key)) <==> k in Map(rs)
    ensures k in Map(rs) ==> Map(Wiped(rs, key))[k] == Map(rs)[k]
  {
    if rs != [] {
      var rest := rs[1..];
      if rs[0].key == key {
        assert Wiped(rs, key) == [Killed(rs[0])] + rest;
        assert ([Killed(rs[0])] + rest)[1..] == rest;
      } else {
        WipedOthers(rest, key, k);
        WipedCons(rs, key);
      }
    }
  }

  /** A key is gone after it has been deleted exactly when at most one record had it. */
  lemma DeleteExactly(rs: seq<Record>, key: seq<byte>)
    requires IsKey(key)
    ensures key !in Map(Wiped(rs, key)) <==> Count(rs, key) <= 1
  {
    WipedCount(rs, key, key);
    CountMap(Wiped(rs, key), key);
  }

  /** All keys in the map are keys that can be looked for. */
  ghost predicate Textual(rs: seq<Record>) {
    forall i :: 0 <= i < |rs| && Live(rs[i]) ==> IsKey(rs[i].key)
  }

  lemma {:induction false} MapKeys(rs: seq<Record>, key: seq<byte>)
    requires Textual(rs) && key in Map(rs)
    ensures IsKey(key)
  {
    if key in Map(rs[1..]) {
      assert Textual(rs[1..]) by {
        forall i | 0 <= i < |rs[1..]| && Live(rs[1..][i])
          ensures IsKey(rs[1..][i].key) { assert rs[1..][i] == rs[i + 1]; }
      }
      MapKeys(rs[1..], key);
    }
  }

  lemma WipedOnce(rs: seq<Record>, key: seq<byte>)
    requires Once(rs) && Framed(rs) && Textual(rs) && IsKey(key)
    ensures Map(Wiped(rs, key)) == Map(rs) - {key}
    ensures Once(Wiped(rs, key)) && Framed(Wiped(rs, key)) && Textual(Wiped(rs, key))
  {
    WipedAt(rs, key, Find(rs, key));
    assert Textual(Wiped(rs, key));
    DeleteExactly(rs, key);
    forall k | IsKey(k) ensures Count(Wiped(rs, key), k) <= 1 { WipedCount(rs, key, k); }
    forall k | k in Map(rs) || k in Map(Wiped(rs, key))
      ensures k in Map(Wiped(rs, key)) <==> k in Map(rs) - {key}
      ensures k in Map(rs) - {key} ==> Map(Wiped(rs, key))[k] == (Map(rs) - {key})[k]
    {
      if k in Map(rs) { MapKeys(rs, k); } else { MapKeys(Wiped(rs, key), k); }
      if k != key { WipedOthers(rs, key, k); }
    }
  }

  // ----- whole runs -----

  datatype Op = InsertOp(key: seq<byte>, text: seq<byte>) | ReplaceOp(key: seq<byte>, text: seq<byte>)
          | DeleteOp(key: seq<byte>)

  /** What the methods of the database do to the records. */
  function Done(rs: seq<Record>, op: Op): seq<Record>
    requires op.key != []
  {
    match op
    case InsertOp(key, text) => rs + [Record(key, text)]
    case ReplaceOp(key, text) => Wiped(rs, key) + [Record(key, text + [0])]
    case DeleteOp(key) => Wiped(rs, key)
  }

  function DoneMap(m: map<seq<byte>, seq<byte>>, op: Op): map<seq<byte>, seq<byte>> {
    match op
    case DeleteOp(key) => m - {key}
    case _ => m[op.key := op.text]
  }

  /** Keys and contents are texts, and only keys that are absent are inserted. */
  ghost predicate Fair(m: map<seq<byte>, seq<byte>>, op: Op) {
    IsKey(op.key) && (op.DeleteOp? || IsText(op.text)) && (op.InsertOp? ==> op.key !in m)
  }

  lemma OneStep(rs: seq<Record>, op: Op)
    requires Once(rs) && Framed(rs) && Textual(rs) && Fair(Map(rs), op)
    ensures Map(Done(rs, op)) == DoneMap(Map(rs), op) && Once(Done(rs, op)) && Framed(Done(rs, op))
      && Textual(Done(rs, op))
  {
    hide Map, Once, Wiped, Text;
    if !op.DeleteOp? {
      TextOf(op.text);
      var r := Record(op.key, op.text + if op.InsertOp? then [] else [0]);
      assert op.text + [] == op.text;
      var base := if op.InsertOp? then rs else Wiped(rs, op.key);
      if op.ReplaceOp? { WipedOnce(rs, op.key); }
      MapAppend(base, r);
      InsertOnce(base, op.key, r.content);
      assert Done(rs, op) == base + [r];
      assert op.ReplaceOp? ==> (Map(rs) - {op.key})[op.key := op.text] == Map(rs)[op.key := op.text];
      AppendedKeys(base, r);
    } else {
      WipedOnce(rs, op.key);
    }
  }

  lemma AppendedKeys(rs: seq<Record>, r: Record)
    requires Framed(rs) && Textual(rs) && IsKey(r.key) && |r.content| <= MAX_INT
    ensures Framed(rs + [r]) && Textual(rs + [r])
  {
  }

  function RunOps(rs: seq<Record>, ops: seq<Op>): seq<Record>
    requires forall k :: 0 <= k < |ops| ==> ops[k].key != []
    decreases |ops|
  {
    if ops == [] then rs else RunOps(Done(rs, ops[0]), ops[1..])
  }

  function RunMap(m: map<seq<byte>, seq<byte>>, ops: seq<Op>): map<seq<byte>, seq<byte>>
    decreases |ops|
  {
    if ops == [] then m else RunMap(DoneMap(m, ops[0]), ops[1..])
  }

  ghost predicate AllFair(m: map<seq<byte>, seq<byte>>, ops: seq<Op>)
    decreases |ops|
  {
    ops == [] || (Fair(m, ops[0]) && AllFair(DoneMap(m, ops[0]), ops[1..]))
  }

  lemma {:induction false} FairKeys(m: map<seq<byte>, seq<byte>>, ops: seq<Op>)
    requires AllFair(m, ops)
    ensures forall k :: 0 <= k < |ops| ==> ops[k].key != []
    decreases |ops|
  {
    if ops != [] {
      FairKeys(DoneMap(m, ops[0]), ops[1..]);
      assert forall k :: 0 < k < |ops| ==> ops[k] == ops[1..][k - 1];
    }
  }

  /** The file refines a map: after every run of fair operations it holds what the map holds, and it
      is still well framed, with one live record for each key. */
  lemma {:induction false} Refines(rs: seq<Record>, ops: seq<Op>)
    requires Once(rs) && Framed(rs) && Textual(rs) && AllFair(Map(rs), ops)
    ensures forall k :: 0 <= k < |ops| ==> ops[k].key != []
    ensures Map(RunOps(rs, ops)) == RunMap(Map(rs), ops)
    ensures Once(RunOps(rs, ops)) && Framed(RunOps(rs, ops)) && Textual(RunOps(rs, ops))
    decreases |ops|
  {
    hide Map, Once, Framed, Textual, Done, DoneMap, Fair;
    FairKeys(Map(rs), ops);
    if ops != [] {
      OneStep(rs, ops[0]);
      Refines(Done(rs, ops[0]), ops[1..]);
    }
  }

  // ----- an enumeration gives each key once -----

  lemma {:induction false} KeysFrom(rs: seq<Record>, i: nat, key: seq<byte>)
    requires i <= |rs| && IsKey(key)
    ensures key in Keys(rs, i) <==> Count(rs[i..], key) > 0
    decreases |rs| - i
  {
    LiveFrom(rs, i);
    if i < |rs| {
      assert rs[i..][1..] == rs[i + 1..];
      KeysFrom(rs, i + 1, key);
    }
  }

  lemma {:induction false} KeysDiffer(rs: seq<Record>, i: nat)
    requires i <= |rs| && Once(rs) && Textual(rs)
    ensures forall a, b :: 0 <= a < b < |Keys(rs, i)| ==> Keys(rs, i)[a] != Keys(rs, i)[b]
    decreases |rs| - i
  {
    LiveFrom(rs, i);
    if i < |rs| {
      KeysDiffer(rs, i + 1);
      if NextLive(rs, i) == i {
        var key := rs[i].key;
        KeysFrom(rs, i + 1, key);
        CountSplit(rs, i, key);
        assert Keys(rs, i) == [key] + Keys(rs, i + 1);
      } else {
        assert Keys(rs, i) == Keys(rs, i + 1);
      }
    }
  }

  lemma {:induction false} CountSplit(rs: seq<Record>, i: nat, key: seq<byte>)
    requires i < |rs|
    ensures Count(rs, key) >= (if Live(rs[i]) && rs[i].key == key then 1 else 0) + Count(rs[i + 1..], key)
    decreases i
  {
    if i > 0 {
      CountSplit(rs[1..], i - 1, key);
      assert rs[1..][i..] == rs[i + 1..];
    }
  }

  /** Enumerating from the first key gives every key of the map, once, and then no more. */
  lemma EnumeratesMap(rs: seq<Record>)
    requires Once(rs) && Textual(rs)
    ensures forall a, b :: 0 <= a < b < |Keys(rs, 0)| ==> Keys(rs, 0)[a] != Keys(rs, 0)[b]
    ensures forall key :: IsKey(key) ==> (key in Keys(rs, 0) <==> key in Map(rs))
  {
    hide Map, Once, Count, Keys;
    KeysDiffer(rs, 0);
    forall key | IsKey(key) ensures key in Keys(rs, 0) <==> key in Map(rs) {
      KeysFrom(rs, 0, key);
      assert rs[0..] == rs;
      CountMap(rs, key);
    }
  }

  /** The record of the key "ab" with the content "xyz" is 2, newline, ab, 3, newline, xyz; once it has been
      wiped, a 0 stands in place of the a. */
  lemma OnDisk()
    ensures var rs := [Record([97, 98], [120, 121, 122])];
      && Bytes(rs) == [50, 10, 97, 98, 51, 10, 120, 121, 122]
      && Bytes(Wiped(rs, [97, 98])) == [50, 10, 0, 98, 51, 10, 120, 121, 122]
  {
    var r, k := Record([97, 98], [120, 121, 122]), Record([0, 98], [120, 121, 122]);
    assert [r][1..] == [] && [k][1..] == [];
    assert Find([r], [97, 98]) == 0;
    assert Killed(r) == k && [r][0 := k] == [k];
  }

  /** A content of ten bytes is announced by two digits. */
  lemma TenBytes(s: seq<byte>)
    requires |s| == 10
    ensures Block(s) == [49, 48, 10] + s
  {
    assert Decimal(10) == [49, 48];
  }

  /** With a key inserted twice, deleting it leaves it there. */
  lemma InsertedTwice()
    ensures var rs := [Record([97], [98]), Record([97], [99])]; [97] in Map(Wiped(rs, [97]))
  {
    var rs := [Record([97], [98]), Record([97], [99])];
    assert rs[1..] == [rs[1]] && [rs[1]][1..] == [];
    assert Count([rs[1]], [97]) == 1;
    DeleteExactly(rs, [97]);
  }
}
