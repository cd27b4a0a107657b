/** refactor_data: the resumable decoder of a chunked message, headers included. */
module ChunkDecoder {
  import opened Text
  import opened HexSize

  /** The function statics of refactor_data, one set per stream. */
  datatype Decoder = Decoder(headers: string, chunkBuffer: string, chunkSize: SizeT, readingSize: bool, complete: bool)

  const FRESH := Decoder("", "", 0, true, false)

  /** What a call answers, the bytes it appends to the caller's buffer, and the statics it leaves. */
  datatype Progress = Progress(done: bool, out: string, decoder: Decoder)

  /** current_chunk_size + 2 in size_t arithmetic: a rejected size line makes it 1. */
  function Want(chunkSize: SizeT): SizeT {
    if chunkSize + 2 < TWO_64 then chunkSize + 2 else chunkSize + 2 - TWO_64
  }

  /** What the code appends behind the last size line: everything behind the next CRLF, or all there is. */
  function AfterLastSize(rest: string): string {
    var endMarker := Find(rest, CRLF, 0);
    if endMarker.Some? then rest[endMarker.value + 2..] else rest
  }

  predicate LineReady(d: Decoder) {
    d.readingSize && Find(d.chunkBuffer, CRLF, 0).Some?
  }

  predicate DataReady(d: Decoder) {
    !d.readingSize && Want(d.chunkSize) <= |d.chunkBuffer|
  }

  /** The size line is read and cut off. */
  function TakeLine(d: Decoder): (d': Decoder)
    requires LineReady(d)
    ensures |d'.chunkBuffer| < |d.chunkBuffer| && !d'.readingSize
  {
    var eol := Find(d.chunkBuffer, CRLF, 0).value;
    d.(chunkSize := ToSizeT(HexToDec(d.chunkBuffer[..eol])), chunkBuffer := d.chunkBuffer[eol + 2..],
        readingSize := false)
  }

  /** The bytes append takes: all of them when the buffer holds less than the announced size. */
  function Data(d: Decoder): string {
    d.chunkBuffer[..Min(d.chunkSize, |d.chunkBuffer|)]
  }

  /** The chunk's data and the two bytes behind it are erased. */
  function TakeData(d: Decoder): (d': Decoder)
    requires DataReady(d)
    ensures |d'.chunkBuffer| <= |d.chunkBuffer| && d'.readingSize
  {
    d.(chunkBuffer := d.chunkBuffer[Want(d.chunkSize)..], readingSize := true)
  }

  /** The bytes of one more data step in front. */
  function Prepend(data: string, p: Progress): Progress {
    Progress(p.done, data + p.out, p.decoder)
  }

  /** The while (true) loop of refactor_data. */
  function DecodeChunks(d: Decoder): Progress
    decreases |d.chunkBuffer|, if d.readingSize then 0 else 1
  {
    if LineReady(d) then
      var d' := TakeLine(d);
      if d'.chunkSize == 0 then Progress(true, AfterLastSize(d'.chunkBuffer), Decoder("", "", 0, true, true))
      else DecodeChunks(d')
    else if DataReady(d) then
      Prepend(Data(d), DecodeChunks(TakeData(d)))
    else Progress(false, "", d)
  }

  predicate SaysChunked(headers: string) {
    Contains(headers, "Transfer-Encoding") && Contains(headers, "chunked")
  }

  /** The test the non-chunked branch makes before it forgets the headers. */
  predicate HasWholeBody(headers: string, bufferSize: nat) {
    var at := Find(headers, "Content-Length", 0);
    && Contains(headers, "Content-Length:")
    && at.Some?
    && bufferSize >= ToSizeT(LeadingInteger(headers[Min(at.value + 16, |headers|)..]) + |headers|)
  }

  predicate StartsUpper(data: string) {
    data != "" && 'A' <= data[0] <= 'Z'
  }

  /** The statics once `data` is appended. */
  function Append(d: Decoder, data: string): Decoder {
    var starts := StartsUpper(data) && d.headers == "" && d.chunkBuffer == "";
    var d' := if starts then d.(chunkSize := 0, readingSize := true) else d;
    d'.(chunkBuffer := d'.chunkBuffer + data)
  }

  predicate HeadReady(d: Decoder) {
    d.headers == "" && Find(d.chunkBuffer, CRLF2, 0).Some?
  }

  /** The statics once the headers, if they are complete, are cut off. */
  function CutHead(d: Decoder): Decoder {
    if HeadReady(d) then
      var end := Find(d.chunkBuffer, CRLF2, 0).value + 4;
      d.(headers := d.chunkBuffer[..end], chunkBuffer := d.chunkBuffer[end..])
    else d
  }

  function Receive(d: Decoder, data: string): Decoder {
    CutHead(Append(d, data))
  }

  function Decode(d: Decoder, bufferSize: nat, data: string): Progress {
    var d' := Receive(d, data);
    if d'.headers == "" then Progress(false, "", d')
    else if SaysChunked(d'.headers) then DecodeChunks(d')
    else if HasWholeBody(d'.headers, bufferSize + |d'.chunkBuffer|) then
      Progress(true, d'.chunkBuffer, Decoder("", "", 0, true, d'.complete))
    else Progress(true, d'.chunkBuffer, d'.(chunkBuffer := ""))
  }

  /** Data is taken although the announced size plus two does not fit in size_t: the size line was rejected, or it
      gives one of the two largest values. */
  function Wrapped(d: Decoder): nat {
    if d.chunkSize + 2 >= TWO_64 then 1 else 0
  }

  /** How often the loop takes data in that way. */
  function WrappedSteps(d: Decoder): nat
    decreases |d.chunkBuffer|, if d.readingSize then 0 else 1
  {
    if LineReady(d) then
      if TakeLine(d).chunkSize == 0 then 0 else WrappedSteps(TakeLine(d))
    else if DataReady(d) then Wrapped(d) + WrappedSteps(TakeData(d))
    else 0
  }

  /** The statics when more bytes stand behind the unread ones. */
  function More(d: Decoder, data: string): Decoder {
    d.(chunkBuffer := d.chunkBuffer + data)
  }

  lemma TakeLineMore(d: Decoder, b: string)
    requires LineReady(d)
    ensures LineReady(More(d, b)) && TakeLine(More(d, b)) == More(TakeLine(d), b)
  {
    FindExtend(d.chunkBuffer, b, CRLF, 0);
    var eol := Find(d.chunkBuffer, CRLF, 0).value;
    assert (d.chunkBuffer + b)[..eol] == d.chunkBuffer[..eol];
    assert (d.chunkBuffer + b)[eol + 2..] == d.chunkBuffer[eol + 2..] + b;
  }

  lemma TakeDataMore(d: Decoder, b: string)
    requires DataReady(d) && |d.chunkBuffer| + |b| < TWO_64 - 2
    ensures DataReady(More(d, b)) && TakeData(More(d, b)) == More(TakeData(d), b)
    ensures Data(More(d, b)) == if Wrapped(d) == 0 then Data(d) else Data(d) + b
  {
    var want := Want(d.chunkSize);
    assert (d.chunkBuffer + b)[want..] == d.chunkBuffer[want..] + b;
    if Wrapped(d) == 0 {
      assert want == d.chunkSize + 2;
      assert (d.chunkBuffer + b)[..d.chunkSize] == d.chunkBuffer[..d.chunkSize];
    } else {
      assert (d.chunkBuffer + b)[..|d.chunkBuffer + b|] == d.chunkBuffer[..|d.chunkBuffer|] + b;
    }
  }

  /** `whole` is `first` then `second`: same control, and the same bytes but for n extra ones a wrapped step. */
  predicate Joins(first: Progress, second: Progress, whole: Progress, wrapped: nat, n: nat) {
    && whole.done == second.done && whole.decoder == second.decoder
    && (wrapped == 0 ==> whole.out == first.out + second.out)
    && |whole.out| == |first.out| + |second.out| + wrapped * n
  }

  lemma JoinsBehind(data: string, b: string, wrap: nat, first: Progress, second: Progress, whole: Progress,
      wrapped: nat)
    requires wrap <= 1 && Joins(first, second, whole, wrapped, |b|)
    ensures Joins(Prepend(data, first), second, Prepend(if wrap == 0 then data else data + b, whole), wrap + wrapped,
        |b|)
  {
    assert (wrap + wrapped) * |b| == wrap * |b| + wrapped * |b|;
    assert data + first.out + second.out == data + (first.out + second.out);
  }

  lemma JoinsExactly(first: Progress, second: Progress, whole: Progress, n: nat)
    requires Joins(first, second, whole, 0, n)
    ensures whole == Prepend(first.out, second)
  {
  }

  lemma UnfoldData(d: Decoder)
    requires DataReady(d)
    ensures DecodeChunks(d) == Prepend(Data(d), DecodeChunks(TakeData(d)))
    ensures WrappedSteps(d) == Wrapped(d) + WrappedSteps(TakeData(d))
  {
  }

  lemma UnfoldLine(d: Decoder)
    requires LineReady(d) && TakeLine(d).chunkSize != 0
    ensures DecodeChunks(d) == DecodeChunks(TakeLine(d)) && WrappedSteps(d) == WrappedSteps(TakeLine(d))
  {
  }

  /** What happens to the rest of the buffer when b arrives while the loop waits, compared with b being there
      already. */
  predicate SplitsAt(d: Decoder, b: string) {
    Joins(DecodeChunks(d), DecodeChunks(More(DecodeChunks(d).decoder, b)), DecodeChunks(More(d, b)), WrappedSteps(d),
        |b|)
  }

  lemma SplitBehindLine(d: Decoder, b: string)
    requires LineReady(d) && TakeLine(d).chunkSize != 0 && SplitsAt(TakeLine(d), b)
    ensures SplitsAt(d, b)
  {
    UnfoldLine(d);
    TakeLineMore(d, b);
    UnfoldLine(More(d, b));
  }

  lemma SplitBehindData(d: Decoder, b: string)
    requires DataReady(d) && |d.chunkBuffer| + |b| < TWO_64 - 2
    requires SplitsAt(TakeData(d), b)
    ensures SplitsAt(d, b)
  {
    hide DecodeChunks, WrappedSteps, Data, TakeData, Joins;
    var next := TakeData(d);
    var first, second, whole := DecodeChunks(next), DecodeChunks(More(DecodeChunks(next).decoder, b)),
        DecodeChunks(More(next, b));
    UnfoldData(d);
    TakeDataMore(d, b);
    UnfoldData(More(d, b));
    JoinsBehind(Data(d), b, Wrapped(d), first, second, whole, WrappedSteps(next));
  }

  /** Cutting the stream where the loop waits: control is never affected, and the bytes exactly by the wrapped steps. */
  lemma {:induction false} DecodeChunksSplit(d: Decoder, b: string)
    requires |d.chunkBuffer| + |b| < TWO_64 - 2
    requires !DecodeChunks(d).done
    ensures SplitsAt(d, b)
    decreases |d.chunkBuffer|, if d.readingSize then 0 else 1
  {
    if LineReady(d) {
      UnfoldLine(d);
      DecodeChunksSplit(TakeLine(d), b);
      SplitBehindLine(d, b);
    } else if DataReady(d) {
      UnfoldData(d);
      DecodeChunksSplit(TakeData(d), b);
      SplitBehindData(d, b);
    }
  }

  lemma {:induction false} KeepsHeaders(d: Decoder)
    requires !DecodeChunks(d).done
    ensures DecodeChunks(d).decoder.headers == d.headers
    ensures DecodeChunks(d).decoder.complete == d.complete
    ensures |DecodeChunks(d).decoder.chunkBuffer| <= |d.chunkBuffer|
    decreases |d.chunkBuffer|, if d.readingSize then 0 else 1
  {
    if LineReady(d) {
      KeepsHeaders(TakeLine(d));
    } else if DataReady(d) {
      KeepsHeaders(TakeData(d));
    }
  }

  /** Wrapped steps taken while the piece `data` is processed. */
  function WrappedIn(d: Decoder, data: string): nat {
    var d' := Receive(d, data);
    if d'.headers != "" && SaysChunked(d'.headers) then WrappedSteps(d') else 0
  }

  lemma AppendMore(d: Decoder, a: string, b: string)
    requires a != ""
    ensures Append(d, a + b) == More(Append(d, a), b)
  {
    assert (a + b)[0] == a[0];
    assert d.chunkBuffer + (a + b) == d.chunkBuffer + a + b;
  }

  lemma CutHeadMore(d: Decoder, b: string)
    requires CutHead(d).headers != ""
    ensures CutHead(More(d, b)) == More(CutHead(d), b)
  {
    if HeadReady(d) {
      FindExtend(d.chunkBuffer, b, CRLF2, 0);
      var end := Find(d.chunkBuffer, CRLF2, 0).value + 4;
      assert (d.chunkBuffer + b)[..end] == d.chunkBuffer[..end];
      assert (d.chunkBuffer + b)[end..] == d.chunkBuffer[end..] + b;
    }
  }

  lemma ReceiveNothing(d: Decoder, b: string)
    ensures Append(d, "") == d && "" + b == b
  {
    assert d.chunkBuffer + "" == d.chunkBuffer;
  }

  lemma ReceiveHead(d: Decoder, a: string, b: string)
    requires Receive(d, a).headers == ""
    ensures Receive(Receive(d, a), b) == Receive(d, a + b)
  {
    if a == "" {
      ReceiveNothing(d, b);
    } else {
      AppendMore(d, a, b);
    }
  }

  lemma ReceiveBody(d: Decoder, a: string, b: string)
    requires Receive(d, a).headers != ""
    ensures Receive(d, a + b) == More(Receive(d, a), b)
  {
    CutHeadMore(Append(d, a), b);
    if a == "" {
      ReceiveNothing(d, b);
      assert CutHead(Append(d, b)) == CutHead(More(d, b));
    } else {
      AppendMore(d, a, b);
    }
  }

  /** refactor_data does not see how TCP cut the stream, except through the wrapped steps of rejected size lines. */
  lemma DecodeSplit(d: Decoder, n: nat, a: string, b: string)
    requires |d.chunkBuffer| + |a| + |b| < TWO_64 - 2
    requires !Decode(d, n, a).done
    ensures var first := Decode(d, n, a);
      Joins(first, Decode(first.decoder, n + |first.out|, b), Decode(d, n, a + b), WrappedIn(d, a), |b|)
  {
    var d' := Receive(d, a);
    var first := Decode(d, n, a);
    if d'.headers == "" {
      ReceiveHead(d, a, b);
    } else {
      assert SaysChunked(d'.headers);
      assert |d'.chunkBuffer| <= |d.chunkBuffer| + |a|;
      ReceiveBody(d, a, b);
      KeepsHeaders(d');
      DecodeChunksSplit(d', b);
      assert Receive(first.decoder, b) == More(first.decoder, b);
    }
  }

  /** refactor_data as the server runs it: the statics are fields, the loop erases and appends in place. */
  class ChunkDecoder {
    var headers: string
    var chunkBuffer: string
    var chunkSize: SizeT
    var readingSize: bool
    var complete: bool

    function View(): Decoder
      reads this
    {
      Decoder(headers, chunkBuffer, chunkSize, readingSize, complete)
    }

    constructor ()
      ensures View() == FRESH
    {
      headers, chunkBuffer, chunkSize, readingSize, complete := "", "", 0, true, false;
    }

    /** The call with no data and length 0. */
    method Reset()
      modifies this
      ensures View() == FRESH
    {
      chunkSize, readingSize, complete := 0, true, false;
      headers, chunkBuffer := "", "";
    }

    /** The bytes are appended and, once they are complete, the headers are cut off. */
    method AcceptData(data: string)
      modifies this
      ensures View() == Receive(old(View()), data)
    {
      if data != "" && 'A' <= data[0] <= 'Z' && headers == "" && chunkBuffer == "" {
        chunkSize, readingSize, headers, chunkBuffer := 0, true, "", "";
      }
      chunkBuffer := chunkBuffer + data;
      assert View() == Append(old(View()), data);
      if headers == "" {
        var headersEnd := Find(chunkBuffer, CRLF2, 0);
        if headersEnd.Some? {
          headers := chunkBuffer[..headersEnd.value + 4];
          chunkBuffer := chunkBuffer[headersEnd.value + 4..];
        }
      }
    }

    /** The call with data; `buffer` is the caller's string. */
    method RefactorData(buffer: string, data: string) returns (done: bool, buffer': string)
      modifies this
      ensures var r := Decode(old(View()), |buffer|, data);
        done == r.done && buffer' == buffer + r.out && View() == r.decoder
    {
      AcceptData(data);
      if headers == "" {
        return false, buffer;
      }
      if Contains(headers, "Transfer-Encoding") && Contains(headers, "chunked") {
        done, buffer' := DecodeLoop(buffer);
      } else {
        done, buffer' := true, buffer + chunkBuffer;
        chunkBuffer := "";
        if HasWholeBody(headers, |buffer'|) {
          headers, chunkSize, readingSize := "", 0, true;
        }
      }
    }

    method DecodeLoop(buffer: string) returns (done: bool, buffer': string)
      modifies this
      ensures Progress(done, buffer', View()) == Prepend(buffer, DecodeChunks(old(View())))
    {
      hide At, HexToDec;
      buffer' := buffer;
      ghost var answer := Prepend(buffer, DecodeChunks(View()));
      while true
        invariant answer == Prepend(buffer', DecodeChunks(View()))
        decreases |chunkBuffer|, if readingSize then 0 else 1
      {
        if readingSize {
          ghost var d := View();
          var eol := Find(chunkBuffer, CRLF, 0);
          if eol.None? {
            assert buffer' + "" == buffer';
            return false, buffer';
          }
          var size := HexToDecLoop(chunkBuffer[..eol.value]);
          chunkSize := ToSizeT(size);
          chunkBuffer := chunkBuffer[eol.value + 2..];
          if chunkSize == 0 {
            Finish();
            buffer' := buffer' + chunkBuffer;
            headers, chunkBuffer, chunkSize, readingSize := "", "", 0, true;
            return true, buffer';
          }
          readingSize := false;
          assert View() == TakeLine(d);
          UnfoldLine(d);
        }
        if |chunkBuffer| < Want(chunkSize) {
          assert buffer' + "" == buffer';
          return false, buffer';
        }
        UnfoldData(View());
        var data := chunkBuffer[..Min(chunkSize, |chunkBuffer|)];
        chunkBuffer := chunkBuffer[Want(chunkSize)..];
        readingSize := true;
        PrependTwice(buffer', data, DecodeChunks(View()));
        buffer' := buffer' + data;
      }
    }

    /** A size line of value zero ends the body; the bytes up to the next CRLF are dropped. */
    method Finish()
      modifies this
      ensures complete && chunkBuffer == AfterLastSize(old(chunkBuffer))
      ensures unchanged(`headers) && unchanged(`chunkSize) && unchanged(`readingSize)
    {
      complete := true;
      var endMarker := Find(chunkBuffer, CRLF, 0);
      if endMarker.Some? {
        chunkBuffer := chunkBuffer[endMarker.value + 2..];
      }
    }
  }

  lemma PrependTwice(a: string, b: string, p: Progress)
    ensures Prepend(a, Prepend(b, p)) == Prepend(a + b, p)
  {
    assert a + (b + p.out) == a + b + p.out;
  }
}
