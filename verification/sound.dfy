/** Sound playback bookkeeping: how long a playing sound has left, when it
    counts as finished, and the play / update / stop life cycle of
    positioned and unpositioned sounds. The audio source and the controller
    of a playing sound belong to the audio library and are opaque: a source
    is a type parameter and a controller an identity supplied by the caller.
    `f32` quantities are reals. */
module Sound {
  import opened Common

  /** A `Duration`, in seconds. */
  type Duration = d: real | 0.0 <= d

  /** `SoundLength`: forever, or a number of seconds still to play. */
  datatype SoundLength = Infinite | Seconds(left: real)

  /** `SoundLength::update_left`: a finite length loses the elapsed time; an
      infinite one stays infinite. */
  function UpdateLeft(length: SoundLength, elapsed: Duration): (r: SoundLength)
    ensures length.Infinite? <==> r.Infinite?
    ensures length.Seconds? ==> r.left == length.left - elapsed
  {
    match length
    case Infinite => Infinite
    case Seconds(s) => Seconds(s - elapsed)
  }

  /** `SoundLength::is_done`: a finite length with nothing left. */
  function IsDoneLength(length: SoundLength): (r: bool)
    ensures r <==> length.Seconds? && length.left <= 0.0
  {
    match length
    case Infinite => false
    case Seconds(s) => s <= 0.0
  }

  /** Total of a sequence of durations. */
  function Total(ds: seq<Duration>): (r: real)
    ensures r >= 0.0
  {
    if ds == [] then 0.0 else Total(ds[..|ds| - 1]) + ds[|ds| - 1]
  }

  /** `length` after `update_left` with each duration in turn. */
  function Elapse(length: SoundLength, ds: seq<Duration>): SoundLength
  {
    if ds == [] then length else UpdateLeft(Elapse(length, ds[..|ds| - 1]), ds[|ds| - 1])
  }

  /** Counting down subtracts the total elapsed time; an infinite length is
      never done. */
  lemma {:induction false} ElapseSubtracts(length: SoundLength, ds: seq<Duration>)
    ensures length.Infinite? ==> Elapse(length, ds) == Infinite && !IsDoneLength(Elapse(length, ds))
    ensures length.Seconds? ==> Elapse(length, ds) == Seconds(length.left - Total(ds))
  {
    if ds != [] {
      ElapseSubtracts(length, ds[..|ds| - 1]);
    }
  }

  /** A playing sound: its controller and the length it has left. */
  datatype Playing = Playing(controller: nat, left: SoundLength)

  /** The shared half of both `update`s: count the playing sound down and
      drop it once it is done. */
  function Tick(sound: Option<Playing>, elapsed: Duration): (r: Option<Playing>)
    ensures sound.None? ==> r.None?
    ensures sound.Some? && IsDoneLength(UpdateLeft(sound.value.left, elapsed)) ==> r.None?
    ensures sound.Some? && !IsDoneLength(UpdateLeft(sound.value.left, elapsed)) ==>
              r == Some(Playing(sound.value.controller, UpdateLeft(sound.value.left, elapsed)))
  {
    match sound
    case None => None
    case Some(Playing(c, left)) =>
      var left' := UpdateLeft(left, elapsed);
      if IsDoneLength(left') then None else Some(Playing(c, left'))
  }

  /** The shared half of both `is_done`s: done when nothing plays. */
  function Done(sound: Option<Playing>): (r: bool)
    ensures sound.None? ==> r
    ensures sound.Some? ==> (r <==> IsDoneLength(sound.value.left))
  {
    match sound
    case None => true
    case Some(p) => IsDoneLength(p.left)
  }

  /** `sound` after an `update` with each duration in turn. */
  function Ticks(sound: Option<Playing>, ds: seq<Duration>): Option<Playing>
  {
    if ds == [] then sound else Tick(Ticks(sound, ds[..|ds| - 1]), ds[|ds| - 1])
  }

  /** A sound started with `Seconds(s)` and then updated with `ds` is done
      exactly when the updates total at least `s`; until the first update it
      is still held, afterwards only while time is left, and then it has
      `s - Total(ds)` seconds to go. */
  lemma {:induction false} FinitePlayback(c: nat, s: real, ds: seq<Duration>)
    ensures Done(Ticks(Some(Playing(c, Seconds(s))), ds)) <==> Total(ds) >= s
    ensures Ticks(Some(Playing(c, Seconds(s))), ds).Some? <==> ds == [] || Total(ds) < s
    ensures Ticks(Some(Playing(c, Seconds(s))), ds).Some? ==>
              Ticks(Some(Playing(c, Seconds(s))), ds) == Some(Playing(c, Seconds(s - Total(ds))))
  {
    if ds != [] {
      FinitePlayback(c, s, ds[..|ds| - 1]);
    }
  }

  /** A sound started with `Infinite` plays on through any updates. */
  lemma {:induction false} InfinitePlayback(c: nat, ds: seq<Duration>)
    ensures Ticks(Some(Playing(c, Infinite)), ds) == Some(Playing(c, Infinite))
    ensures !Done(Ticks(Some(Playing(c, Infinite)), ds))
  {
    if ds != [] {
      InfinitePlayback(c, ds[..|ds| - 1]);
    }
  }

  /** Three `f32`s. */
  datatype Vec3 = Vec3(x: real, y: real, z: real)

  /** `PositionedSound`: a source with its configured length, a position
      and velocity, and what is playing. */
  datatype PositionedSound<S> = PositionedSound(source: S, length: SoundLength, position: Vec3, velocity: Vec3, sound: Option<Playing>)

  /** `PositionedSound::new`: at rest, nothing playing. */
  function NewPositioned<S>(source: S, length: SoundLength, position: Vec3): (r: PositionedSound<S>)
    ensures r.source == source && r.length == length && r.position == position
    ensures r.velocity == Vec3(0.0, 0.0, 0.0) && r.sound.None?
    ensures PositionedIsDone(r)
  {
    PositionedSound(source, length, position, Vec3(0.0, 0.0, 0.0), None)
  }

  /** `PositionedSound::set_velocity`: only the velocity changes (the
      playing controller is told too, which is not modelled). */
  function SetVelocity<S>(p: PositionedSound<S>, v: Vec3): (r: PositionedSound<S>)
    ensures r.velocity == v && r.(velocity := p.velocity) == p
  {
    p.(velocity := v)
  }

  /** `PositionedSound::update`: the position moves by velocity times the
      elapsed time, and the playing sound counts down and is dropped once
      done. The configured length never changes. */
  function UpdatePositioned<S>(p: PositionedSound<S>, elapsed: Duration): (r: PositionedSound<S>)
    ensures r.position == Vec3(p.position.x + p.velocity.x * elapsed,
                               p.position.y + p.velocity.y * elapsed,
                               p.position.z + p.velocity.z * elapsed)
    ensures r.sound == Tick(p.sound, elapsed)
    ensures r.source == p.source && r.length == p.length && r.velocity == p.velocity
  {
    var v := p.velocity;
    p.(position := Vec3(p.position.x + v.x * elapsed, p.position.y + v.y * elapsed, p.position.z + v.z * elapsed),
       sound := Tick(p.sound, elapsed))
  }

  /** `PositionedSound::play`: a fresh copy of the configured length starts
      counting down under a new controller. */
  function PlayPositioned<S>(p: PositionedSound<S>, controller: nat): (r: PositionedSound<S>)
    ensures r.sound == Some(Playing(controller, p.length))
    ensures r.(sound := p.sound) == p
  {
    p.(sound := Some(Playing(controller, p.length)))
  }

  /** `PositionedSound::stop`: the playing controller, if any, is told to
      stop; the sound's own state is left as it was. */
  function StopPositioned<S>(p: PositionedSound<S>): (r: (PositionedSound<S>, Option<nat>))
    ensures r.0 == p
    ensures r.1.Some? <==> p.sound.Some?
    ensures r.1.Some? ==> r.1.value == p.sound.value.controller
  {
    (p, if p.sound.Some? then Some(p.sound.value.controller) else None)
  }

  /** `PositionedSound::is_done`. */
  function PositionedIsDone<S>(p: PositionedSound<S>): (r: bool)
    ensures p.sound.None? ==> r
    ensures p.sound.Some? ==> (r <==> IsDoneLength(p.sound.value.left))
  {
    Done(p.sound)
  }

  /** `UnpositionedSound`: a source with its configured length and what is
      playing. */
  datatype UnpositionedSound<S> = UnpositionedSound(source: S, length: SoundLength, sound: Option<Playing>)

  /** `UnpositionedSound::new`: nothing playing. */
  function NewUnpositioned<S>(source: S, length: SoundLength): (r: UnpositionedSound<S>)
    ensures r.source == source && r.length == length && r.sound.None?
    ensures UnpositionedIsDone(r)
  {
    UnpositionedSound(source, length, None)
  }

  /** `UnpositionedSound::update`: the playing sound counts down and is
      dropped once done. */
  function UpdateUnpositioned<S>(u: UnpositionedSound<S>, elapsed: Duration): (r: UnpositionedSound<S>)
    ensures r.sound == Tick(u.sound, elapsed)
    ensures r.source == u.source && r.length == u.length
  {
    u.(sound := Tick(u.sound, elapsed))
  }

  /** `UnpositionedSound::play`. */
  function PlayUnpositioned<S>(u: UnpositionedSound<S>, controller: nat): (r: UnpositionedSound<S>)
    ensures r.sound == Some(Playing(controller, u.length))
    ensures r.(sound := u.sound) == u
  {
    u.(sound := Some(Playing(controller, u.length)))
  }

  /** `UnpositionedSound::stop`: the playing controller, if any, is told to
      stop, and nothing plays afterwards. */
  function StopUnpositioned<S>(u: UnpositionedSound<S>): (r: (UnpositionedSound<S>, Option<nat>))
    ensures r.0.sound.None? && r.0.source == u.source && r.0.length == u.length
    ensures r.1.Some? <==> u.sound.Some?
    ensures r.1.Some? ==> r.1.value == u.sound.value.controller
    ensures UnpositionedIsDone(r.0)
  {
    (u.(sound := None), if u.sound.Some? then Some(u.sound.value.controller) else None)
  }

  /** `UnpositionedSound::is_done`. */
  function UnpositionedIsDone<S>(u: UnpositionedSound<S>): (r: bool)
    ensures u.sound.None? ==> r
    ensures u.sound.Some? ==> (r <==> IsDoneLength(u.sound.value.left))
  {
    Done(u.sound)
  }

  /** The unpositioned sound after `update` with each duration in turn. */
  function UpdatesUnpositioned<S>(u: UnpositionedSound<S>, ds: seq<Duration>): (r: UnpositionedSound<S>)
    ensures r.source == u.source && r.length == u.length
    ensures r.sound == Ticks(u.sound, ds)
  {
    if ds == [] then u else UpdateUnpositioned(UpdatesUnpositioned(u, ds[..|ds| - 1]), ds[|ds| - 1])
  }

  /** Playing a sound configured for `s` seconds and then updating it: it is
      done exactly once the updates total `s`, and playing it again restarts
      the full length, since the configured length is never counted down. */
  lemma {:induction false} ReplayRestarts<S>(u: UnpositionedSound<S>, c: nat, c': nat, ds: seq<Duration>)
    requires u.length.Seconds?
    ensures UnpositionedIsDone(UpdatesUnpositioned(PlayUnpositioned(u, c), ds)) <==> Total(ds) >= u.length.left
    ensures PlayUnpositioned(UpdatesUnpositioned(PlayUnpositioned(u, c), ds), c').sound
         == Some(Playing(c', u.length))
  {
    FinitePlayback(c, u.length.left, ds);
  }
}
