/** OutputFileUtil of the C backend: a generated file is rewritten only when
    its bytes differ from what the build target already holds.  The input
    stream of the existing resource is modelled by the existing bytes and
    the sizes its successive read(buffer) calls return. */
module OutputFileUtil {
  import opened Common

  /** The size of the read buffer. */
  const BufferSize: nat := 4096

  function Sum(chunks: seq<nat>): nat
  {
    if chunks == [] then 0 else Sum(chunks[..|chunks| - 1]) + chunks[|chunks| - 1]
  }

  lemma {:induction false} SumPrefixBound(chunks: seq<nat>, k: nat)
    requires k <= |chunks|
    ensures Sum(chunks[..k]) <= Sum(chunks)
    decreases |chunks| - k
  {
    if k < |chunks| {
      assert chunks[..k + 1][..k] == chunks[..k];
      SumPrefixBound(chunks, k + 1);
    } else {
      assert chunks[..k] == chunks;
    }
  }

  /** What InputStream.read(byte[]) may do on a 4096-byte buffer: each call
      returns at most the buffer's length, and the calls before end of
      stream together deliver the whole resource. */
  predicate ValidChunks(chunks: seq<nat>, total: nat)
  {
    (forall i :: 0 <= i < |chunks| ==> chunks[i] <= BufferSize) && Sum(chunks) == total
  }

  /** One read(buffer) call: -1 at end of stream, otherwise the number of
      bytes copied to the front of the buffer. */
  method Read(buffer: array<byte>, content: seq<byte>, chunks: seq<nat>, c: nat, pos: nat)
    returns (bytesRead: int)
    requires buffer.Length == BufferSize
    requires c <= |chunks| && (forall i :: 0 <= i < |chunks| ==> chunks[i] <= BufferSize)
    requires pos == Sum(chunks[..c]) && Sum(chunks) == |content|
    modifies buffer
    ensures c == |chunks| ==> bytesRead == -1
    ensures c < |chunks| ==> bytesRead == chunks[c]
    ensures c < |chunks| ==> pos + bytesRead == Sum(chunks[..c + 1]) <= |content|
    ensures c < |chunks| ==> buffer[..bytesRead] == content[pos..pos + bytesRead]
  {
    if c == |chunks| {
      return -1;
    }
    bytesRead := chunks[c];
    assert chunks[..c + 1][..c] == chunks[..c];
    SumPrefixBound(chunks, c + 1);
    forall i | 0 <= i < bytesRead {
      buffer[i] := content[pos + i];
    }
  }

  /** isChanged: true when there is no existing resource, when the existing
      bytes would run past the new data, on the first mismatching byte, and
      when the existing bytes are a strict prefix of the new data.  Whatever
      the chunk sizes, the answer is "the existing content is not the data". */
  method IsChanged(existing: Option<seq<byte>>, chunks: seq<nat>, data: seq<byte>) returns (changed: bool)
    requires existing.Some? ==> ValidChunks(chunks, |existing.value|)
    ensures changed <==> existing != Some(data)
  {
    if existing.None? {
      return true;
    }
    var content := existing.value;
    var buffer := new byte[BufferSize];
    var index := 0;
    var c := 0;
    while true
      invariant c <= |chunks|
      invariant index == Sum(chunks[..c]) <= |data|
      invariant index <= |content|
      invariant content[..index] == data[..index]
      decreases |chunks| - c
    {
      var bytesRead := Read(buffer, content, chunks, c, index);
      if bytesRead < 0 {
        break;
      }
      if bytesRead + index > |data| {
        assert |content| > |data|;
        return true;
      }
      ghost var start := index;
      for i := 0 to bytesRead
        invariant index == start + i
        invariant content[..index] == data[..index]
      {
        if buffer[i] != data[index] {
          assert content[index] != data[index];
          return true;
        }
        assert content[..index + 1] == content[..index] + [content[index]];
        assert data[..index + 1] == data[..index] + [data[index]];
        index := index + 1;
      }
      c := c + 1;
    }
    assert chunks[..c] == chunks;
    assert content[..index] == content;
    changed := index < |data|;
    assert !changed ==> data[..index] == data;
  }

  /** A build target: its named resources and the names createResource was
      called with, in order. */
  class BuildTarget {
    var resources: map<string, seq<byte>>
    var created: seq<string>

    constructor (resources: map<string, seq<byte>>)
      ensures this.resources == resources && created == []
    {
      this.resources := resources;
      created := [];
    }

    /** createResource followed by writing the bytes. */
    method CreateResource(name: string, bytes: seq<byte>)
      modifies this
      ensures resources == old(resources)[name := bytes]
      ensures created == old(created) + [name]
    {
      resources := resources[name := bytes];
      created := created + [name];
    }
  }

  /** write: the rendered bytes replace the resource only when isChanged says
      so.  Afterwards the resource holds the bytes either way. */
  method Write(bytes: seq<byte>, name: string, target: BuildTarget, chunks: seq<nat>)
    requires name in target.resources ==> ValidChunks(chunks, |target.resources[name]|)
    modifies target
    ensures name in target.resources && target.resources[name] == bytes
    ensures var same := name in old(target.resources) && old(target.resources[name]) == bytes;
            && target.resources == old(target.resources)[name := bytes]
            && target.created == old(target.created) + (if same then [] else [name])
  {
    var existing := if name in target.resources then Some(target.resources[name]) else None;
    var changed := IsChanged(existing, chunks, bytes);
    if !changed {
      assert target.resources == target.resources[name := bytes];
      return;
    }
    target.CreateResource(name, bytes);
  }
}
