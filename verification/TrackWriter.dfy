/** do_write of cdda2wav/cdda2wav.c over its buffer of samples, with the sample converter it calls. */
module TrackWriter {
  import opened Bytes
  import opened Decimation
  import opened Converter
  import opened TrackSplit

  /** The samples in a part of a buffer. */
  lemma SamplesSlice(p: seq<Byte>, n: nat, k: nat)
    requires |p| == 4 * n && k <= n
    ensures Samples(p[..4 * k], k) == Samples(p, n)[..k]
    ensures Samples(p[4 * k..], n - k) == Samples(p, n)[k..]
  {
    forall i | 0 <= i < k
      ensures Samples(p[..4 * k], k)[i] == Samples(p, n)[i]
    {
      SamplesPrefix(p[..4 * k], i, k);
      SamplesPrefix(p, i, n);
    }
    forall i | k <= i < n
      ensures Samples(p, n)[i] == Samples(p[4 * k..], n - k)[i - k]
    {
      SamplesPrefix(p[4 * k..], i - k, n - k);
      SamplesPrefix(p, i, n);
    }
  }

  /** Samples number `at` to `at + n` of the buffer `p`. */
  function Part(p: seq<Byte>, at: nat, n: nat): (s: seq<Stereo>)
    requires 4 * (at + n) <= |p|
    ensures |s| == n
  {
    Samples(p[4 * at..4 * (at + n)], n)
  }

  lemma PartOfPart(p: seq<Byte>, at: nat, n: nat, k: nat)
    requires 4 * (at + n) <= |p| && k <= n
    ensures Part(p, at, k) == Part(p, at, n)[..k] && Part(p, at + k, n - k) == Part(p, at, n)[k..]
  {
    var q := p[4 * at..4 * (at + n)];
    SamplesSlice(q, n, k);
    assert q[..4 * k] == p[4 * at..4 * (at + k)] && q[4 * k..] == p[4 * (at + k)..4 * (at + n)];
  }

  lemma SamePart(p: seq<Byte>, i: nat, q: seq<Byte>, j: nat, n: nat)
    requires 4 * (i + n) <= |p| && 4 * (j + n) <= |q| && p[4 * i..4 * (i + n)] == q[4 * j..4 * (j + n)]
    ensures Part(p, i, n) == Part(q, j, n)
  {
  }

  /** A part behind the bytes that may have changed. */
  lemma PartBehind(p: seq<Byte>, q: seq<Byte>, at: nat, i: nat, n: nat)
    requires |p| == |q| && at <= i && 4 * (i + n) <= |p| && p[4 * at..] == q[4 * at..]
    ensures Part(p, i, n) == Part(q, i, n)
  {
    assert p[4 * i..4 * (i + n)] == p[4 * at..][4 * (i - at)..4 * (i - at + n)];
    assert q[4 * i..4 * (i + n)] == q[4 * at..][4 * (i - at)..4 * (i - at + n)];
  }

  /** The samples that a call takes from the buffer. */
  lemma WantedPart(c: Session, b: Book, p: seq<Byte>, at: nat, available: nat, n: nat)
    requires 4 * (at + available) <= |p| && b.done <= c.toDo
    requires n == if c.toDo - b.done < available then c.toDo - b.done else available
    ensures Part(p, at, n) == Wanted(c, b, Part(p, at, available))
  {
    PartOfPart(p, at, available, n);
    assert Part(p, at, available)[..available] == Part(p, at, available);
  }

  /** No samples give no bytes. */
  lemma NothingGives(d: Divisor, f: Format, h: seq<Stereo>)
    ensures EffectOf(d, f, h, []) != Gives
  {
    assert h + [] == h;
  }

  class Writer {
    const c: Session
    const conv: SampleConverter
    var done: nat
    var track: nat
    var toWrite: int
    var file: Option<nat>
    var stopped: bool
    ghost var log: seq<Saved>

    ghost predicate Valid()
      reads this, conv
    {
      && conv.Valid() && c.effect == SavingOf(conv.d, conv.f) && done <= c.toDo
      && (!stopped ==> conv.input == Inputs(log))
    }

    ghost function Abs(): Book
      reads this
    {
      Book(done, track, toWrite, file, log, stopped)
    }

    constructor (c: Session, f: Format, track: nat)
      requires c.effect == SavingOf(c.d, f)
      ensures Valid() && fresh(conv) && this.c == c && Abs() == Begin(c, track)
    {
      this.c := c;
      conv := new SampleConverter(c.d, f);
      done, this.track, toWrite, file, log := 0, track, SamplesToWrite(c), Some(track), [];
      stopped := false;
    }

    /** The samples go through the converter, which counts them or not; the write fails if no file is open. */
    method Convert(p: array<Byte>, n: nat)
      requires Valid() && !stopped && p.Length == 4 * n && n <= c.toDo - done
      modifies `done, `log, `stopped, conv, p
      ensures Valid()
      ensures var ss := Samples(old(p[..]), n);
              var effect := c.effect(old(Inputs(log)), ss);
              if file == None && effect == Gives
              then stopped && log == old(log) && done == old(done)
              else !stopped && log == old(log) + Marked(ss, file)
                   && done == if effect == Holds then old(done) else old(done) + n
    {
      ghost var ss := Samples(p[..], n);
      InputsMore(log, ss, file);
      var out, total := conv.SaveBuffer(p, n, done);
      if |out| > 0 && file.None? {
        stopped := true;
      } else {
        done := total;
        log := log + Marked(ss, file);
      }
    }

    /** SaveBuffer on a part of the buffer, which it converts in place. */
    method SaveBuffer(data: array<Byte>, at: nat, n: nat)
      requires Valid() && !stopped && 4 * (at + n) <= data.Length && n <= c.toDo - done
      modifies `done, `log, `stopped, conv, data
      ensures Valid()
      ensures var ss := Part(old(data[..]), at, n);
              var effect := c.effect(old(Inputs(log)), ss);
              if file == None && effect == Gives
              then stopped && log == old(log) && done == old(done)
              else !stopped && log == old(log) + Marked(ss, file)
                   && done == if effect == Holds then old(done) else old(done) + n
      ensures data[..][4 * (at + n)..] == old(data[..])[4 * (at + n)..]
    {
      ghost var bytes := data[..];
      var p := new Byte[4 * n];
      forall i | 0 <= i < 4 * n {
        p[i] := data[4 * at + i];
      }
      assert p[..] == bytes[4 * at..4 * (at + n)];
      ghost var ss := Part(bytes, at, n);
      Convert(p, n);
      assert !stopped ==> log == old(log) + Marked(ss, file);
      forall i | 0 <= i < 4 * n {
        data[4 * at + i] := p[i];
      }
    }

    /** memmove of the residual samples to the place of those just saved. */
    method MoveDown(data: array<Byte>, at: nat, gap: nat, n: nat)
      requires 4 * (at + gap + n) <= data.Length
      modifies data
      ensures Part(data[..], at, n) == Part(old(data[..]), at + gap, n)
    {
      ghost var p := data[..];
      forall i | 0 <= i < 4 * n {
        data[4 * at + i] := data[4 * (at + gap) + i];
      }
      assert data[..][4 * at..4 * (at + n)] == p[4 * (at + gap)..4 * (at + gap + n)];
      SamePart(data[..], at, p, at + gap, n);
    }

    /** The file is closed, and the next one opened unless nothing is left to write. */
    method NextTrack()
      modifies `track, `file
      ensures Abs() == NextFile(old(Abs()))
    {
      // an unsigned long is greater than 0 unless it is 0
      file := if toWrite != 0 then Some(track + 1) else None;
      track := track + 1;
    }

    /** The first part of a round: samples are saved. */
    method SaveChunk(data: array<Byte>, at: nat, inSamples: nat, howMuch: nat, ghost ss: seq<Stereo>)
      requires Valid() && !stopped && 4 * (at + inSamples) <= data.Length && inSamples <= c.toDo - done
      requires howMuch == HowMuch(LeftInTrack(c, track, done), inSamples) && ss == Part(data[..], at, inSamples)
      modifies `done, `log, `toWrite, `stopped, conv, data
      ensures Valid()
      ensures Abs() == if Fails(c, old(Abs()), ss) then old(Abs()).(stopped := true) else Kept(c, old(Abs()), ss)
      ensures data[..][4 * (at + howMuch)..] == old(data[..])[4 * (at + howMuch)..]
    {
      ghost var b := Abs();
      PartOfPart(data[..], at, inSamples, howMuch);
      assert Chunk(c, b, ss) == Part(data[..], at, howMuch);
      NothingGives(conv.d, conv.f, Inputs(log));
      SaveBuffer(data, at, howMuch);
      if !stopped {
        toWrite := toWrite - howMuch;
      }
    }

    /** The samples `ss` were in the buffer `p`; the rest of them moves to the buffer start. */
    method MoveRest(data: array<Byte>, at: nat, inSamples: nat, howMuch: nat, ghost p: seq<Byte>, ghost ss: seq<Stereo>)
      requires howMuch <= inSamples && 4 * (at + inSamples) <= data.Length == |p|
      requires data[..][4 * (at + howMuch)..] == p[4 * (at + howMuch)..] && ss == Part(p, at, inSamples)
      modifies data
      ensures Part(data[..], at, inSamples - howMuch) == ss[howMuch..]
    {
      PartOfPart(p, at, inSamples, howMuch);
      PartBehind(data[..], p, at + howMuch, at + howMuch, inSamples - howMuch);
      if howMuch < inSamples {
        MoveDown(data, at, howMuch, inSamples - howMuch);
      }
    }

    /** Both. */
    method SaveSome(data: array<Byte>, at: nat, inSamples: nat, howMuch: nat, ghost ss: seq<Stereo>)
      requires Valid() && !stopped && 4 * (at + inSamples) <= data.Length && inSamples <= c.toDo - done
      requires howMuch == HowMuch(LeftInTrack(c, track, done), inSamples) && ss == Part(data[..], at, inSamples)
      modifies `done, `log, `toWrite, `stopped, conv, data
      ensures Valid()
      ensures Abs() == if Fails(c, old(Abs()), ss) then old(Abs()).(stopped := true) else Kept(c, old(Abs()), ss)
      ensures !stopped ==> Part(data[..], at, inSamples - howMuch) == ss[howMuch..]
    {
      ghost var p := data[..];
      SaveChunk(data, at, inSamples, howMuch, ss);
      if !stopped {
        MoveRest(data, at, inSamples, howMuch, p, ss);
      }
    }

    /** One round of the loop, with the samples `ss` in the buffer; `left` of them remain. */
    method WriteSome(data: array<Byte>, at: nat, inSamples: nat, ghost ss: seq<Stereo>) returns (left: nat)
      requires Valid() && !stopped && 4 * (at + inSamples) <= data.Length && 0 < inSamples <= c.toDo - done
      requires ss == Part(data[..], at, inSamples)
      modifies `done, `log, `toWrite, `track, `file, `stopped, conv, data
      ensures Valid() && left <= inSamples && Abs() == Round(c, old(Abs()), ss)
      ensures !stopped ==> Part(data[..], at, left) == ss[|Chunk(c, old(Abs()), ss)|..]
    {
      var howMuch: nat := inSamples;
      var leftInTrack := StartSector(c, track + 1) * SECTOR - (c.begin + done);
      if 0 <= leftInTrack < howMuch {
        howMuch := leftInTrack;
      }
      left := inSamples - howMuch;
      SaveSome(data, at, inSamples, howMuch, ss);
      if !stopped && 0 <= leftInTrack <= inSamples {
        NextTrack();
      }
    }

    /** The loop of do_write, with the `n` samples `ss` from number `at` on. */
    method WriteAll(data: array<Byte>, at: nat, n: nat, ghost ss: seq<Stereo>)
      requires Valid() && 4 * (at + n) <= data.Length && n <= c.toDo - done && ss == Part(data[..], at, n)
      modifies `done, `log, `toWrite, `track, `file, `stopped, conv, data
      ensures Valid() && Abs() == Rounds(c, old(Abs()), ss)
    {
      ghost var rest := ss;
      var inSamples: nat := n;
      while !stopped && done < c.toDo && inSamples != 0
        invariant Valid() && 4 * (at + inSamples) <= data.Length
        invariant !stopped ==> inSamples <= c.toDo - done && Part(data[..], at, inSamples) == rest
        invariant Rounds(c, Abs(), rest) == Rounds(c, old(Abs()), ss)
        decreases |rest|, TracksLeft(c, Abs())
      {
        ghost var b, part := Abs(), rest;
        rest := part[|Chunk(c, b, part)|..];
        RoundsStep(c, b, part, rest);
        inSamples := WriteSome(data, at, inSamples, part);
      }
      RoundsEnd(c, Abs(), rest);
    }

    /** do_write on the samples from number `at` to the end of the buffer. */
    method DoWrite(data: array<Byte>, at: nat)
      requires Valid() && data.Length % 4 == 0 && 4 * at <= data.Length
      modifies `done, `log, `toWrite, `track, `file, `stopped, conv, data
      ensures Valid()
      ensures Abs() == Rounds(c, old(Abs()), Wanted(c, old(Abs()), Part(old(data[..]), at, data.Length / 4 - at)))
    {
      var available: nat := data.Length / 4 - at;
      var inSamples: nat := available;
      ghost var ss := Wanted(c, Abs(), Part(data[..], at, available));
      if c.toDo - done < inSamples {
        inSamples := c.toDo - done;
      }
      WantedPart(c, Abs(), data[..], at, available, inSamples);
      WriteAll(data, at, inSamples, ss);
    }
  }
}
