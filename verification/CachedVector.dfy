/** `CacheManager` of common/cached-vector.cpp: a vector kept in a file behind a window of samples. */
module CachedVector {
  import opened Grid

  const MAX_CACHE := 512 * 1024 * 1024
  const MAX_SIZE := 30 * 1024 * 1024 * 1024

  // ---------------------------------------------------------------------------
  // Samples of `e` bytes laid end to end.

  function Offset(e: int, i: int): int { i * e }

  lemma OffsetStep(e: int)
    ensures Offset(e, 0) == 0 && forall i :: Offset(e, i + 1) == Offset(e, i) + e
  {
  }

  lemma OffsetSum(e: int, i: int, j: int)
    ensures Offset(e, i + j) == Offset(e, i) + Offset(e, j)
  {
  }

  lemma OffsetLess(e: int, i: int, j: int)
    requires 0 < e && i < j
    ensures Offset(e, i) + e <= Offset(e, j)
  {
    OffsetStep(e);
    Monotone(i + 1, j, e);
  }

  lemma OffsetInjective(e: int, i: int, j: int)
    requires 0 < e && Offset(e, i) == Offset(e, j)
    ensures i == j
  {
    if i < j { OffsetLess(e, i, j); }
    if j < i { OffsetLess(e, j, i); }
  }

  lemma OffsetNatural(e: int, i: int)
    requires 0 < e && 0 <= i
    ensures 0 <= Offset(e, i)
  {
    Monotone(0, i, e);
  }

  lemma OffsetQuotient(e: int, i: int)
    requires 0 < e && 0 <= i
    ensures Offset(e, i) / e == i
  {
    Quotient(e, Offset(e, i));
    QuotientUnique(e, Offset(e, i) / e, Offset(e, i) % e, i, 0);
  }

  /** `bytes` is the concatenation of `samples`, each of `e` bytes. */
  ghost predicate Holds(bytes: seq<Byte>, samples: seq<seq<Byte>>, e: int) {
    && 0 < e && |bytes| == Offset(e, |samples|)
    && forall i :: 0 <= i < |samples| ==> |samples[i]| == e && SampleAt(bytes, e, i) == samples[i]
  }

  function SampleAt(bytes: seq<Byte>, e: int, i: int): seq<Byte> {
    if 0 <= Offset(e, i) <= Offset(e, i) + e <= |bytes| then bytes[Offset(e, i)..Offset(e, i) + e] else []
  }

  lemma SamplePlace(bytes: seq<Byte>, samples: seq<seq<Byte>>, e: int, i: int)
    requires Holds(bytes, samples, e) && 0 <= i < |samples|
    ensures 0 <= Offset(e, i) && Offset(e, i) + e <= |bytes|
    ensures bytes[Offset(e, i)..Offset(e, i) + e] == samples[i] && |samples[i]| == e
  {
    OffsetNatural(e, i);
    OffsetLess(e, i, |samples|);
    hide Offset;
    assert SampleAt(bytes, e, i) == samples[i];
  }

  lemma HoldsNext(bytes: seq<Byte>, samples: seq<seq<Byte>>, e: int, data: seq<Byte>)
    requires Holds(bytes, samples, e) && |data| == e
    ensures Holds(bytes + data, samples + [data], e)
  {
    OffsetStep(e);
    hide Offset;
    var more := bytes + data;
    forall i | 0 <= i < |samples| + 1 ensures SampleAt(more, e, i) == (samples + [data])[i] {
      OffsetNatural(e, i);
      if i < |samples| {
        SamplePlace(bytes, samples, e, i);
        assert more[Offset(e, i)..Offset(e, i) + e] == bytes[Offset(e, i)..Offset(e, i) + e];
      } else {
        assert more[Offset(e, i)..Offset(e, i) + e] == data;
      }
    }
  }

  /** A run of `n` samples read from sample `from` on. */
  lemma HoldsPart(bytes: seq<Byte>, samples: seq<seq<Byte>>, e: int, from: int, n: int)
    requires Holds(bytes, samples, e) && 0 <= from && 0 <= n && from + n <= |samples|
    ensures 0 <= Offset(e, from) && 0 <= Offset(e, n) && Offset(e, from) + Offset(e, n) <= |bytes|
    ensures Holds(bytes[Offset(e, from)..Offset(e, from) + Offset(e, n)], samples[from..from + n], e)
  {
    OffsetNatural(e, from);
    OffsetNatural(e, n);
    OffsetSum(e, from, n);
    if from + n < |samples| { OffsetLess(e, from + n, |samples|); }
    hide Offset, SampleAt, Holds;
    var part := bytes[Offset(e, from)..Offset(e, from) + Offset(e, n)];
    forall i | 0 <= i < n ensures SampleAt(part, e, i) == samples[from + i] && |samples[from + i]| == e {
      PartSample(bytes, samples, e, from, n, i);
    }
    HoldsSamples(part, samples[from..from + n], e);
  }

  lemma HoldsSamples(bytes: seq<Byte>, samples: seq<seq<Byte>>, e: int)
    requires 0 < e && |bytes| == Offset(e, |samples|)
    requires forall i :: 0 <= i < |samples| ==> |samples[i]| == e && SampleAt(bytes, e, i) == samples[i]
    ensures Holds(bytes, samples, e)
  {
    hide Offset, SampleAt;
  }

  /** One sample of such a run. */
  lemma PartSample(bytes: seq<Byte>, samples: seq<seq<Byte>>, e: int, from: int, n: int, i: int)
    requires Holds(bytes, samples, e) && 0 <= from && 0 <= i < n && from + n <= |samples|
    requires 0 <= Offset(e, from) && 0 <= Offset(e, n) && Offset(e, from) + Offset(e, n) <= |bytes|
    ensures SampleAt(bytes[Offset(e, from)..Offset(e, from) + Offset(e, n)], e, i) == samples[from + i]
    ensures |samples[from + i]| == e
  {
    SamplePlace(bytes, samples, e, from + i);
    OffsetSum(e, from, i);
    OffsetNatural(e, i);
    OffsetLess(e, i, n);
    hide Offset, SampleAt, Holds;
    var start := Offset(e, from);
    PartOfPart(bytes, start, Offset(e, n), Offset(e, i), e);
    SampleAtIs(bytes[start..start + Offset(e, n)], e, i);
  }

  lemma SampleAtIs(bytes: seq<Byte>, e: int, i: int)
    requires 0 <= Offset(e, i) <= Offset(e, i) + e <= |bytes|
    ensures SampleAt(bytes, e, i) == bytes[Offset(e, i)..Offset(e, i) + e]
  {
  }

  lemma PartOfPart(s: seq<Byte>, start: int, n: int, at: int, e: int)
    requires 0 <= start && 0 <= at && 0 <= e && at + e <= n && start + n <= |s|
    ensures s[start..start + n][at..at + e] == s[start + at..start + at + e]
  {
    var part := s[start..start + n];
    assert forall k :: at <= k < at + e ==> part[k] == s[start + k];
  }

  lemma SamePart(samples: seq<seq<Byte>>, data: seq<Byte>, from: int, to: int)
    requires 0 <= from <= to <= |samples|
    ensures (samples + [data])[from..to] == samples[from..to]
  {
  }

  // ---------------------------------------------------------------------------
  // The file.

  datatype LastUse = Positioned | Read | Written

  /** A binary update-mode stream.  `misused` records that reading and writing met without a seek between
      them, after which the C library promises nothing. */
  class DiskFile {
    var contents: seq<Byte>
    var pos: int
    var last: LastUse
    var misused: bool

    constructor ()
      ensures contents == [] && pos == 0 && last == Positioned && !misused
    {
      contents, pos, last, misused := [], 0, Positioned, false;
    }

    method Seek(to: int)
      requires 0 <= to <= |contents|
      modifies this`pos, this`last
      ensures pos == to && last == Positioned
    {
      pos, last := to, Positioned;
    }

    method Write(data: seq<Byte>)
      requires 0 <= pos <= |contents|
      modifies this
      ensures last == Written && pos == old(pos) + |data| && misused == (old(misused) || old(last) == Read)
      ensures old(pos) == |old(contents)| ==> contents == old(contents) + data
    {
      var end := pos + |data|;
      contents := contents[..pos] + data + (if end <= |contents| then contents[end..] else []);
      pos, last, misused := end, Written, misused || last == Read;
    }

    method ReadBytes(n: int) returns (data: seq<Byte>)
      requires 0 <= pos && 0 <= n && pos + n <= |contents|
      modifies this`pos, this`last, this`misused
      ensures last == Read && pos == old(pos) + n && data == contents[old(pos)..pos]
      ensures misused == (old(misused) || old(last) == Written)
    {
      data := contents[pos..pos + n];
      pos, last, misused := pos + n, Read, misused || last == Written;
    }
  }

  // ---------------------------------------------------------------------------

  class CacheManager {
    var elementSize: int
    var samplesNum: int
    var file: DiskFile?
    var fileSize: int
    var filePos: int
    var writingPos: int
    var canIncreaseFile: bool
    var cacheMaxSize: int
    var cachePosInDump: int
    var cacheData: seq<Byte>
    ghost var samples: seq<seq<Byte>>  // everything added since the last clear
    ghost var window: int              // how many samples the cache holds

    ghost predicate Valid()
      reads this, file
    {
      && file != null && !file.misused && 0 < elementSize && 1 <= cacheMaxSize && canIncreaseFile
      && samplesNum == |samples| && Holds(file.contents, samples, elementSize)
      && fileSize == writingPos == |file.contents| && 0 <= file.pos <= |file.contents|
      && 0 <= cachePosInDump && 0 <= window && (window > 0 ==> cachePosInDump + window <= |samples|)
      && Holds(cacheData, if window > 0 then samples[cachePosInDump..cachePosInDump + window] else [], elementSize)
      && Tracks()
    }

    /** What `filePos` is worth: exact after a write, stale after a read, when it is still the start of the
        window that was read. */
    ghost predicate Tracks()
      requires file != null
      reads this, file
    {
      match file.last
      case Positioned => filePos == file.pos == 0 && samples == []
      case Written => filePos == file.pos == writingPos
      case Read => window > 0 && filePos == Offset(elementSize, cachePosInDump)
    }

    constructor ()
      ensures file == null && cacheMaxSize == 200 && elementSize == 0
    {
      samplesNum, file, fileSize, filePos, writingPos := 0, null, 0, 0, 0;
      canIncreaseFile, cachePosInDump, cacheMaxSize, cacheData := true, 0, 200, [];
      elementSize, samples, window := 0, [], 0;
    }

    /** Empties everything; with `reopen` the file is created again. */
    method Clear(reopen: bool)
      requires 0 < elementSize && 1 <= cacheMaxSize
      modifies this
      ensures elementSize == old(elementSize) && cacheMaxSize == old(cacheMaxSize)
      ensures Blank() && if reopen then Valid() && fresh(file) else file == null
    {
      cacheData, cachePosInDump, samplesNum, fileSize, filePos, writingPos := [], 0, 0, 0, 0, 0;
      canIncreaseFile := true;
      samples, window := [], 0;
      file := null;
      OffsetStep(elementSize);
      if reopen {
        file := new DiskFile();
      }
    }

    ghost predicate Blank()
      reads this
    {
      && cacheData == [] && cachePosInDump == samplesNum == fileSize == filePos == writingPos == window == 0
      && canIncreaseFile && samples == []
    }

    /** A fresh file for samples of `size` bytes. */
    method Init(size: int)
      requires 0 < size <= MAX_CACHE
      modifies this
      ensures Valid() && fresh(file) && elementSize == size && samples == []
      ensures cacheMaxSize <= 512 && Offset(size, cacheMaxSize) <= 536870912
      ensures cacheMaxSize < 512 ==> Offset(size, cacheMaxSize + 1) > 536870912
    {
      elementSize := size;
      AtLeastOne(size);
      LargestFit(size);
      cacheMaxSize := if 512 < MAX_CACHE / size then 512 else MAX_CACHE / size;
      Clear(false);
      OffsetStep(size);
      file := new DiskFile();
    }

    lemma AtLeastOne(size: int)
      requires 0 < size <= MAX_CACHE
      ensures 1 <= MAX_CACHE / size
    {
      Quotient(size, MAX_CACHE);
      if MAX_CACHE / size <= 0 { Monotone(MAX_CACHE / size, 0, size); }
    }

    /** As many samples as fit in 512 MiB, and no more. */
    lemma LargestFit(size: int)
      requires 0 < size <= MAX_CACHE
      ensures Offset(size, MAX_CACHE / size) <= 536870912 < Offset(size, MAX_CACHE / size + 1)
      ensures 512 < MAX_CACHE / size ==> Offset(size, 512) <= 536870912
    {
      Quotient(size, MAX_CACHE);
      OffsetStep(size);
      if 512 < MAX_CACHE / size { Monotone(512, MAX_CACHE / size, size); }
    }

    function CacheSize(): int
      requires elementSize != 0
      reads this
    {
      |cacheData| / elementSize
    }

    /** A position that looks right for appending is right, and no read has come since. */
    lemma ReadyToWrite()
      requires Valid()
      ensures filePos == writingPos ==> file.pos == writingPos && !file.last.Read?
    {
      if file.last.Read? { OffsetLess(elementSize, cachePosInDump, |samples|); }
    }

    /** Outside the window the stale position never equals the wanted one, so a read always seeks. */
    lemma ReadyToRead(index: int)
      requires Valid() && 0 <= index < samplesNum
      requires !(cachePosInDump <= index < cachePosInDump + window)
      ensures filePos != Offset(elementSize, index)
      ensures 0 <= Offset(elementSize, index) < fileSize
    {
      OffsetNatural(elementSize, index);
      OffsetLess(elementSize, index, |samples|);
      if Offset(elementSize, index) == Offset(elementSize, cachePosInDump) {
        OffsetInjective(elementSize, index, cachePosInDump);
      }
    }

    lemma WindowSize()
      requires Valid()
      ensures CacheSize() == window
    {
      OffsetQuotient(elementSize, window);
    }

    /** Writes a sample at the writing position, seeking there unless the position says it is there. */
    method PutSample(data: seq<Byte>)
      requires file != null && 0 <= writingPos <= |file.contents| && 0 <= file.pos <= |file.contents| && |data| == elementSize
      modifies this`filePos, this`writingPos, file
      ensures filePos == writingPos == old(writingPos) + elementSize
      ensures old(filePos == writingPos ==> file.pos == writingPos && !file.last.Read?) ==>
        file.pos == writingPos && file.last == Written && file.misused == old(file.misused)
        && (old(writingPos) == |old(file.contents)| ==> file.contents == old(file.contents) + data)
    {
      if filePos != writingPos {
        file.Seek(writingPos);
        filePos := writingPos;
      }
      file.Write(data);
      filePos := filePos + elementSize;
      writingPos := writingPos + elementSize;
    }

    /** Appends a sample.  Beyond 30 GiB writing starts over at the front of the file. */
    method Add(data: seq<Byte>)
      requires Valid() && |data| == elementSize
      modifies this, file
      ensures file == old(file) && elementSize == old(elementSize)
      ensures old(writingPos) + elementSize <= 32212254720 ==> Valid() && samples == old(samples) + [data]
    {
      hide Holds, Offset;
      ghost var held := if window > 0 then samples[cachePosInDump..cachePosInDump + window] else [];
      ReadyToWrite();
      HoldsNext(file.contents, samples, elementSize, data);
      if writingPos + elementSize > MAX_SIZE {
        writingPos := 0;
        canIncreaseFile := false;
      }
      PutSample(data);
      if canIncreaseFile {
        samplesNum := samplesNum + 1;
        fileSize := fileSize + elementSize;
      }
      if window > 0 { SamePart(samples, data, cachePosInDump, cachePosInDump + window); }
      samples := samples + [data];
    }

    /** The sample at `index`, from the window or by moving the window there. */
    method GetSample(index: int) returns (sample: seq<Byte>)
      requires Valid() && 0 <= index < samplesNum
      modifies this, file
      ensures Valid() && file == old(file) && elementSize == old(elementSize)
      ensures samples == old(samples) && file.contents == old(file.contents)
      ensures sample == samples[index] && cacheMaxSize == old(cacheMaxSize)
      ensures old(cachePosInDump <= index < cachePosInDump + window) ==>
        window == old(window) && cachePosInDump == old(cachePosInDump) && file.pos == old(file.pos) && file.last == old(file.last)
      ensures !old(cachePosInDump <= index < cachePosInDump + window) ==>
        cachePosInDump == index && window == if samplesNum - index < cacheMaxSize then samplesNum - index else cacheMaxSize
    {
      hide Holds, Offset, CacheSize;
      WindowSize();
      if index >= cachePosInDump && index < cachePosInDump + CacheSize() {
        ghost var held := samples[cachePosInDump..cachePosInDump + window];
        SamplePlace(cacheData, held, elementSize, index - cachePosInDump);
        var stride := Offset(elementSize, index - cachePosInDump);
        return cacheData[stride..stride + elementSize];
      }
      ReadyToRead(index);
      var stride := Offset(elementSize, index);
      var count := if samplesNum - index < cacheMaxSize then samplesNum - index else cacheMaxSize;
      HoldsPart(file.contents, samples, elementSize, index, count);
      ghost var part, bytes := samples[index..index + count], file.contents[stride..stride + Offset(elementSize, count)];
      OffsetStep(elementSize);
      SamplePlace(bytes, part, elementSize, 0);
      assert bytes[..elementSize] == samples[index];
      if stride != filePos {
        file.Seek(stride);
        filePos := stride;
      }
      cacheData := file.ReadBytes(Offset(elementSize, count));
      assert cacheData == bytes;
      cachePosInDump := index;
      window := count;
      sample := cacheData[..elementSize];
    }
  }
}
