/** Fixed-size chunking of a large file that is read block by block
    (`SyncManager._process_large_file`). */
module Streaming {
  import opened Text

  const CHUNK_SIZE := 2000
  const OVERLAP := 200
  const STEP := 1800

  /** How many full windows start at the multiples of the step in a text of `n` characters. */
  function WindowCount(n: nat): nat {
    if n < CHUNK_SIZE then 0 else 1 + (n - CHUNK_SIZE) / STEP
  }

  lemma WindowCountIff(n: nat, i: nat)
    ensures i < WindowCount(n) <==> STEP * i + CHUNK_SIZE <= n
  {
  }

  function Windows(text: string, count: nat): seq<string>
    requires count <= WindowCount(|text|)
  {
    seq(count, i requires 0 <= i < count =>
      WindowCountIff(|text|, i);
      text[STEP * i..STEP * i + CHUNK_SIZE])
  }

  /** What follows the start of the last window's successor. */
  function Tail(text: string): string {
    var k := WindowCount(|text|);
    assert k > 0 ==> STEP * (k - 1) + CHUNK_SIZE <= |text|;
    text[STEP * k..]
  }

  /** One-shot chunking: all full windows, then the remaining tail unless it is blank. */
  function OneShot(text: string): seq<string> {
    Windows(text, WindowCount(|text|)) + if Strip(Tail(text)) != "" then [Tail(text)] else []
  }

  lemma CountIs(n: nat, k: nat)
    requires 1800 * k <= n < 1800 * k + 2000 && (k > 0 ==> 1800 * (k - 1) + 2000 <= n)
    ensures WindowCount(n) == k
  {
    WindowCountIff(n, k);
    if k > 0 {
      WindowCountIff(n, k - 1);
    }
  }

  lemma WindowAt(text: string, k: nat, i: nat)
    requires i < k <= WindowCount(|text|)
    ensures 1800 * i + 2000 <= |text| && Windows(text, k)[i] == text[1800 * i..1800 * i + 2000]
  {
    WindowCountIff(|text|, i);
  }

  lemma WindowsThenTail(text: string, k: nat, tail: string)
    requires WindowCount(|text|) == k && 1800 * k <= |text| && tail == text[1800 * k..]
    ensures OneShot(text) == Windows(text, k) + if Blank(tail) then [] else [tail]
  {
    StripBlank(tail);
  }

  /** There is a chunk of 2000 characters at every multiple of 1800 where there are as many, and behind them one
      more with the rest, unless that is blank. */
  lemma OneShotExact(text: string, k: nat, i: nat)
    requires 1800 * k <= |text| < 1800 * k + 2000 && (k > 0 ==> 1800 * (k - 1) + 2000 <= |text|)
    ensures |OneShot(text)| == k + if Blank(text[1800 * k..]) then 0 else 1
    ensures i < k ==> 1800 * i + 2000 <= |text| && OneShot(text)[i] == text[1800 * i..1800 * i + 2000]
    ensures !Blank(text[1800 * k..]) ==> OneShot(text)[k] == text[1800 * k..]
  {
    CountIs(|text|, k);
    WindowsThenTail(text, k, text[1800 * k..]);
    if i < k {
      WindowAt(text, k, i);
    }
  }

  /** Windows that fit in the beginning of a text are windows of the text. */
  lemma WindowsOfPrefix(text: string, longer: string, count: nat)
    requires text <= longer && count <= WindowCount(|text|)
    ensures count <= WindowCount(|longer|)
    ensures Windows(text, count) == Windows(longer, count)
  {
    forall i | 0 <= i < count
      ensures STEP * i + CHUNK_SIZE <= |text|
      ensures text[STEP * i..STEP * i + CHUNK_SIZE] == longer[STEP * i..STEP * i + CHUNK_SIZE]
    {
      WindowCountIff(|text|, i);
    }
  }

  lemma WindowsSnoc(text: string, count: nat)
    requires STEP * count + CHUNK_SIZE <= |text|
    ensures count < WindowCount(|text|)
    ensures Windows(text, count + 1) == Windows(text, count) + [text[STEP * count..STEP * count + CHUNK_SIZE]]
  {
    WindowCountIff(|text|, count);
  }

  /** However the reader cuts the text into blocks, the chunks are those of the whole text. */
  method ChunkBlocks(blocks: seq<string>) returns (texts: seq<string>)
    ensures texts == OneShot(Flatten(blocks))
  {
    texts := [];
    var buffer := "";
    ghost var read := "";
    assert Flatten<char>([]) == "";
    for i := 0 to |blocks|
      invariant read == Flatten(blocks[..i])
      invariant |texts| == WindowCount(|read|) && texts == Windows(read, |texts|)
      invariant buffer == read[STEP * |texts|..]
    {
      TakeSnoc(blocks, i);
      FlattenSnoc(blocks[..i], blocks[i]);
      buffer := buffer + blocks[i];
      WindowsOfPrefix(read, read + blocks[i], |texts|);
      read := read + blocks[i];
      while |buffer| >= CHUNK_SIZE
        invariant |texts| <= WindowCount(|read|) && texts == Windows(read, |texts|)
        invariant STEP * |texts| <= |read| && buffer == read[STEP * |texts|..]
        decreases |buffer|
      {
        var chunkText := buffer[..CHUNK_SIZE];
        WindowsSnoc(read, |texts|);
        assert chunkText == read[STEP * |texts|..STEP * |texts| + CHUNK_SIZE];
        buffer := buffer[CHUNK_SIZE - OVERLAP..];
        texts := texts + [chunkText];
      }
      WindowCountIff(|read|, |texts|);
    }
    TakeAll(blocks);
    if Strip(buffer) != "" {
      texts := texts + [buffer];
    }
  }

  /** Dropping from every chunk after the first the characters it repeats. */
  function Rebuild(chunks: seq<string>): string {
    if chunks == [] then ""
    else if |chunks| == 1 then chunks[0]
    else
      var last := chunks[|chunks| - 1];
      Rebuild(chunks[..|chunks| - 1]) + Slice(last, OVERLAP, |last|)
  }

  lemma {:induction false} RebuildWindows(text: string, count: nat)
    requires 0 < count <= WindowCount(|text|)
    ensures STEP * (count - 1) + CHUNK_SIZE <= |text|
    ensures Rebuild(Windows(text, count)) == text[..STEP * (count - 1) + CHUNK_SIZE]
  {
    WindowCountIff(|text|, count - 1);
    if count > 1 {
      RebuildWindows(text, count - 1);
      var windows := Windows(text, count);
      var end := STEP * (count - 1) + CHUNK_SIZE;
      assert windows[..count - 1] == Windows(text, count - 1);
      assert windows[count - 1] == text[end - CHUNK_SIZE..end];
      assert text[..end - STEP] + text[end - STEP..end] == text[..end];
    } else {
      assert Windows(text, 1)[0] == text[0..CHUNK_SIZE];
    }
  }

  lemma RebuildSnoc(chunks: seq<string>, last: string)
    requires chunks != [] && |last| >= OVERLAP
    ensures Rebuild(chunks + [last]) == Rebuild(chunks) + last[OVERLAP..]
  {
    SnocInit(chunks, last);
    assert Slice(last, OVERLAP, |last|) == last[OVERLAP..];
  }

  /** After at least one window, the tail starts with the characters the last window ends with. */
  lemma TailAfterWindows(text: string) returns (end: nat)
    requires WindowCount(|text|) > 0
    ensures end <= |text| && |Tail(text)| >= OVERLAP && Tail(text)[OVERLAP..] == text[end..]
    ensures Rebuild(Windows(text, WindowCount(|text|))) == text[..end]
  {
    var k := WindowCount(|text|);
    RebuildWindows(text, k);
    end := STEP * (k - 1) + CHUNK_SIZE;
  }

  lemma RebuildWithTail(text: string)
    requires Strip(Tail(text)) != ""
    ensures Rebuild(OneShot(text)) == text
  {
    var windows, tail := Windows(text, WindowCount(|text|)), Tail(text);
    if windows == [] {
      assert tail == text;
      AppendEmpty([text]);
    } else {
      var end := TailAfterWindows(text);
      RebuildSnoc(windows, tail);
      SplitAt(text, end);
    }
  }

  lemma RebuildWithoutTail(text: string) returns (end: nat)
    requires Strip(Tail(text)) == ""
    ensures end <= |text| && Rebuild(OneShot(text)) == text[..end] && Blank(text[end..])
  {
    var windows, tail := Windows(text, WindowCount(|text|)), Tail(text);
    AppendEmpty(windows);
    StripBlank(tail);
    if windows == [] {
      end := 0;
      assert tail == text[0..];
    } else {
      end := TailAfterWindows(text);
      BlankDrop(tail, OVERLAP);
    }
  }

  /** The chunks lose nothing but a blank tail: without their repeated characters they are the text up
      to whitespace that no chunk covers. */
  lemma OneShotRebuilds(text: string) returns (lost: string)
    ensures Rebuild(OneShot(text)) + lost == text
    ensures Blank(lost)
    ensures Strip(Tail(text)) != "" ==> lost == ""
  {
    if Strip(Tail(text)) != "" {
      RebuildWithTail(text);
      AppendEmpty(text);
      lost := "";
    } else {
      var end := RebuildWithoutTail(text);
      SplitAt(text, end);
      lost := text[end..];
    }
  }
}
