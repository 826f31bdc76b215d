/** Between the shared blocks and the motor objects: which shared slot belongs to which motor,
    what a control snapshot does to the motors and what is published back. */
module MotorBridge {
  import opened Rounding
  import opened Encoder
  import opened Robstride
  import Seqlock

  const MOTOR_NUM: nat := 12

  /** By shared slot (four legs of hip roll, hip pitch, knee pitch): the motor's place in the
      motor list. */
  const VECTOR_INDEX: seq<nat> := [0, 4, 8, 1, 5, 9, 2, 6, 10, 3, 7, 11]

  /** By shared slot: the motor's bus id. */
  const SLOT_CAN_ID: seq<int> :=
    [0x01, 0x02, 0x03, 0x11, 0x12, 0x13, 0x21, 0x22, 0x23, 0x31, 0x32, 0x33]

  /** By place in the motor list, the order in which the motors are created. */
  const CREATED_CAN_ID: seq<int> :=
    [0x01, 0x11, 0x21, 0x31, 0x02, 0x12, 0x22, 0x32, 0x03, 0x13, 0x23, 0x33]

  /** The two index tables and the creation order fit together, and no two slots share a motor. */
  lemma SlotsMeetTheirMotors()
    ensures |VECTOR_INDEX| == |SLOT_CAN_ID| == |CREATED_CAN_ID| == MOTOR_NUM
    ensures forall i :: 0 <= i < MOTOR_NUM ==>
              VECTOR_INDEX[i] < MOTOR_NUM && CREATED_CAN_ID[VECTOR_INDEX[i]] == SLOT_CAN_ID[i]
    ensures forall i, j :: 0 <= i < j < MOTOR_NUM ==> VECTOR_INDEX[i] != VECTOR_INDEX[j]
    ensures forall i, j :: 0 <= i < j < MOTOR_NUM ==> SLOT_CAN_ID[i] != SLOT_CAN_ID[j]
  {
  }

  /** Twelve different motor objects with the configured ids. */
  ghost predicate Fleet(motors: seq<RobstrideMotor>) {
    && |motors| == MOTOR_NUM
    && forall k :: 0 <= k < MOTOR_NUM ==> motors[k].canId == CREATED_CAN_ID[k]
  }

  function MotorOf(motors: seq<RobstrideMotor>, slot: nat): (m: RobstrideMotor)
    requires |motors| == MOTOR_NUM && slot < MOTOR_NUM
    ensures m in motors
  {
    motors[VECTOR_INDEX[slot]]
  }

  /** Each slot has its own motor, with the slot's bus id. */
  lemma MotorsDiffer(motors: seq<RobstrideMotor>)
    requires Fleet(motors)
    ensures forall i :: 0 <= i < MOTOR_NUM ==> MotorOf(motors, i).canId == SLOT_CAN_ID[i]
    ensures forall i, j :: 0 <= i < j < MOTOR_NUM ==> MotorOf(motors, i) != MotorOf(motors, j)
  {
  }

  /** Position, clamped to full scale, and gains are taken over; velocity and torque are not. */
  method ApplyControl(motors: seq<RobstrideMotor>, snapshot: seq<Control>)
    requires Fleet(motors) && |snapshot| == MOTOR_NUM
    modifies set m | m in motors :: m`control
    ensures forall i :: 0 <= i < MOTOR_NUM ==>
              var m, c := MotorOf(motors, i), snapshot[i];
              && m.canId == SLOT_CAN_ID[i]
              && m.control.pos == Clamp(c.pos, -POS_SCALE, POS_SCALE) && m.control.kp == c.kp && m.control.kd == c.kd
              && m.control.vel == old(m.control.vel) && m.control.ffTorque == old(m.control.ffTorque)
  {
    MotorsDiffer(motors);
    hide MotorOf, Fleet, Clamp;
    for i := 0 to MOTOR_NUM
      invariant forall j :: 0 <= j < i ==>
                  var m, c := MotorOf(motors, j), snapshot[j];
                  && m.control.pos == Clamp(c.pos, -POS_SCALE, POS_SCALE)
                  && m.control.kp == c.kp && m.control.kd == c.kd
                  && m.control.vel == old(m.control.vel) && m.control.ffTorque == old(m.control.ffTorque)
      invariant forall j :: i <= j < MOTOR_NUM ==> MotorOf(motors, j).control == old(MotorOf(motors, j).control)
    {
      var m := MotorOf(motors, i);
      var c := snapshot[i];
      m.control := m.control.(pos := Clamp(c.pos, -POS_SCALE, POS_SCALE));
      m.control := m.control.(kp := c.kp);
      m.control := m.control.(kd := c.kd);
    }
  }

  /** Every slot publishes the corrected position and the other readings of its own motor. */
  method CollectFeedback(motors: seq<RobstrideMotor>) returns (fb: array<Feedback>)
    requires Fleet(motors)
    ensures fresh(fb) && fb.Length == MOTOR_NUM
    ensures forall i :: 0 <= i < MOTOR_NUM ==>
              fb[i] == MotorOf(motors, i).feedback.(pos := MotorOf(motors, i).Corrected())
  {
    fb := new Feedback[MOTOR_NUM](_ => Feedback(0.0, 0.0, 0.0, 0.0));
    for i := 0 to MOTOR_NUM
      invariant forall j :: 0 <= j < i ==>
                  fb[j] == MotorOf(motors, j).feedback.(pos := MotorOf(motors, j).Corrected())
    {
      var m := MotorOf(motors, i);
      fb[i] := Feedback(m.feedback.pos + m.posOffset, m.feedback.vel, m.feedback.torque, m.feedback.temp);
    }
  }

  // ---------------------------------------------------------------------------
  // Start-up of the receiving thread
  // ---------------------------------------------------------------------------

  ghost predicate WholeFrames(frames: seq<RxFrame>) {
    forall k :: 0 <= k < |frames| ==> |frames[k].data| == 8
  }

  /** What a motor knows after these frames: the last one for it that carries no error bits. */
  function LastFeedback(frames: seq<RxFrame>, kind: MotorType, id: int, before: Feedback): Feedback
    requires WholeFrames(frames)
  {
    if frames == [] then before
    else
      var p := ParseRxFrame(frames[|frames| - 1]);
      if p.error == 0 && p.motorId == id then Scaled(kind, p.pos, p.vel, p.torque, p.temp)
      else LastFeedback(frames[..|frames| - 1], kind, id, before)
  }

  /** The table leads to each motor of the list by its id, and nowhere else. */
  ghost predicate Routes(handler: RxHandler, motors: seq<RobstrideMotor>)
    reads handler.table
  {
    && handler.table.Length == handler.maxId == MAX_ID && DistinctIds(motors)
    && (forall i :: 0 <= i < |motors| && 0 <= motors[i].canId < MAX_ID ==> handler.table[motors[i].canId] == motors[i])
    && forall id :: 0 <= id < MAX_ID && handler.table[id] != null ==>
         handler.table[id] in motors && handler.table[id].canId == id
  }

  /** Frame `k` is the last error-free answer of this motor. */
  ghost predicate LastAnswer(frames: seq<RxFrame>, k: nat, id: int)
    requires k < |frames|
  {
    IsAnswer(frames[k].canId, id, 0) && forall j :: k < j < |frames| ==> !IsAnswer(frames[j].canId, id, 0)
  }

  /** A motor inside the table knows its last error-free answer; without one, and outside the
      table, nothing new. */
  ghost predicate Heard(frames: seq<RxFrame>, m: RobstrideMotor, before: Feedback, after: Feedback) {
    && (forall k: nat :: k < |frames| && LastAnswer(frames, k, m.canId) && 0 <= m.canId < MAX_ID ==>
          Reads(after, m.kind, frames[k].data))
    && ((forall k :: 0 <= k < |frames| ==> !IsAnswer(frames[k].canId, m.canId, 0)) ==> after == before)
    && (!(0 <= m.canId < MAX_ID) ==> after == before)
  }

  lemma {:induction false} LastFeedbackIs(frames: seq<RxFrame>, kind: MotorType, id: int, before: Feedback, k: nat)
    requires WholeFrames(frames) && k < |frames| && LastAnswer(frames, k, id)
    ensures Reads(LastFeedback(frames, kind, id, before), kind, frames[k].data)
    decreases frames
  {
    hide IsAnswer, Reads, Scaled, ParseRxFrame;
    var n := |frames| - 1;
    AnswerIsParsed(frames[n], id, 0);
    ScaledReads(kind, frames[n]);
    if k < n {
      LastFeedbackIs(frames[..n], kind, id, before, k);
    }
  }

  lemma {:induction false} NeverAnswered(frames: seq<RxFrame>, kind: MotorType, id: int, before: Feedback)
    requires WholeFrames(frames) && forall k :: 0 <= k < |frames| ==> !IsAnswer(frames[k].canId, id, 0)
    ensures LastFeedback(frames, kind, id, before) == before
  {
    hide IsAnswer, Scaled, ParseRxFrame;
    if frames != [] {
      var n := |frames| - 1;
      AnswerIsParsed(frames[n], id, 0);
      NeverAnswered(frames[..n], kind, id, before);
    }
  }

  /** The first pass over the received frames skips those with error bits. */
  method ReceiveAll(handler: RxHandler, motors: seq<RobstrideMotor>, frames: seq<RxFrame>)
    requires Routes(handler, motors) && WholeFrames(frames)
    modifies set m | m in motors :: m`feedback
    ensures forall i :: 0 <= i < |motors| ==>
              Heard(frames, motors[i], old(motors[i].feedback), motors[i].feedback)
  {
    hide Scaled, ParseRxFrame, Heard;
    for k := 0 to |frames|
      invariant forall i :: 0 <= i < |motors| ==>
                  motors[i].feedback == Received(frames[..k], motors[i], old(motors[i].feedback))
    {
      assert frames[..k + 1][..k] == frames[..k];
      var p := ParseRxFrame(frames[k]);
      if p.error == 0 {
        handler.WriteFb(p.motorId, p.pos, p.vel, p.torque, p.temp);
      }
    }
    assert frames[..|frames|] == frames;
    forall i | 0 <= i < |motors|
      ensures Heard(frames, motors[i], old(motors[i].feedback), motors[i].feedback)
    {
      ReceivedIsHeard(frames, motors[i], old(motors[i].feedback));
    }
  }

  function Received(frames: seq<RxFrame>, m: RobstrideMotor, before: Feedback): Feedback
    requires WholeFrames(frames)
  {
    if 0 <= m.canId < MAX_ID then LastFeedback(frames, m.kind, m.canId, before) else before
  }

  lemma ReceivedIsHeard(frames: seq<RxFrame>, m: RobstrideMotor, before: Feedback)
    requires WholeFrames(frames)
    ensures Heard(frames, m, before, Received(frames, m, before))
  {
    hide IsAnswer, Reads, LastFeedback;
    forall k: nat | k < |frames| && LastAnswer(frames, k, m.canId)
      ensures Reads(LastFeedback(frames, m.kind, m.canId, before), m.kind, frames[k].data)
    {
      LastFeedbackIs(frames, m.kind, m.canId, before, k);
    }
    if forall k :: 0 <= k < |frames| ==> !IsAnswer(frames[k].canId, m.canId, 0) {
      NeverAnswered(frames, m.kind, m.canId, before);
    }
  }

  /** Then every motor is calibrated against zero: its corrected position lies within half a turn
      of its mounting angle. */
  method CalibrateAll(motors: seq<RobstrideMotor>)
    requires DistinctIds(motors)
    modifies set m | m in motors :: m`posOffset, set m | m in motors :: m`calibrated
    ensures forall i :: 0 <= i < |motors| ==>
              && motors[i].calibrated
              && motors[i].posOffset == PosOffset(motors[i].feedback.pos, 0.0, motors[i].posOffsetMech)
              && Abs(motors[i].Corrected() + motors[i].posOffsetMech) <= PI
  {
    hide PosOffset, Abs;
    for i := 0 to |motors|
      invariant forall j :: 0 <= j < i ==>
                  && motors[j].calibrated
                  && motors[j].posOffset == PosOffset(motors[j].feedback.pos, 0.0, motors[j].posOffsetMech)
    {
      var m := motors[i];
      assert m in motors;
      m.Calibrate(0.0);
    }
    forall j | 0 <= j < |motors|
      ensures Abs(motors[j].Corrected() + motors[j].posOffsetMech) <= PI
    {
      CalibratedNearExpected(motors[j].feedback.pos, 0.0, motors[j].posOffsetMech);
    }
  }

  /** Feedback first, calibration after it. A motor that was not heard, such as any with an id
      outside the table, is calibrated from the zero position it was created with. */
  method Startup(motors: seq<RobstrideMotor>, frames: seq<RxFrame>) returns (handler: RxHandler)
    requires DistinctIds(motors) && WholeFrames(frames)
    modifies set m | m in motors :: m`feedback,
             set m | m in motors :: m`posOffset, set m | m in motors :: m`calibrated
    ensures Routes(handler, motors)
    ensures forall i :: 0 <= i < |motors| ==>
              && Heard(frames, motors[i], old(motors[i].feedback), motors[i].feedback) && motors[i].calibrated
              && motors[i].posOffset == PosOffset(motors[i].feedback.pos, 0.0, motors[i].posOffsetMech)
              && Abs(motors[i].Corrected() + motors[i].posOffsetMech) <= PI
  {
    hide Heard;
    handler := RegisterAndAddress(motors);
    ReceiveAll(handler, motors, frames);
    CalibrateAll(motors);
  }

  // ---------------------------------------------------------------------------
  // One cycle out and back
  // ---------------------------------------------------------------------------

  /** A snapshot goes out: every slot's motor is sent its clamped position and gains, less the
      calibrated offset, with whatever velocity and torque it had. */
  method ControlCycle(motors: seq<RobstrideMotor>, snapshot: seq<Control>) returns (frames: seq<CommandFrame>)
    requires Fleet(motors) && |snapshot| == MOTOR_NUM
    modifies set m | m in motors :: m`control
    ensures |frames| == MOTOR_NUM && forall k :: 0 <= k < MOTOR_NUM ==> FrameFor(frames[k], motors[k].canId)
    ensures forall i :: 0 <= i < MOTOR_NUM ==>
              var m, c := MotorOf(motors, i), snapshot[i];
              Stands(frames[VECTOR_INDEX[i]], m.kind, SLOT_CAN_ID[i], m.posOffset,
                     Control(Clamp(c.pos, -POS_SCALE, POS_SCALE), old(m.control.vel), c.kp, c.kd,
                             old(m.control.ffTorque)))
  {
    SlotsMeetTheirMotors();
    ApplyControl(motors, snapshot);
    hide Stands, Clamp, FrameFor;
    frames := FramesOf(motors);
  }

  /** One frame per motor, in the order of the motor list. */
  method FramesOf(motors: seq<RobstrideMotor>) returns (frames: seq<CommandFrame>)
    ensures |frames| == |motors|
    ensures forall k :: 0 <= k < |motors| ==>
              && FrameFor(frames[k], motors[k].canId)
              && Stands(frames[k], motors[k].kind, motors[k].canId, motors[k].posOffset, motors[k].control)
  {
    frames := [];
    hide EncodeSigned, EncodeUnsigned;
    for k := 0 to |motors|
      invariant |frames| == k && forall j :: 0 <= j < k ==> FrameFor(frames[j], motors[j].canId)
      invariant forall j :: 0 <= j < k ==>
                  Stands(frames[j], motors[j].kind, motors[j].canId, motors[j].posOffset, motors[j].control)
    {
      var m := motors[k];
      var f := m.UpdatedOperationFrame();
      assert FrameFor(f, m.canId);
      frames := frames + [f];
    }
  }

  /** A motor that has reached its command answers with the codes of the frame. */
  ghost predicate Echoes(e: RxFrame, f: CommandFrame) {
    && |e.data| == |f.data| == 8 && IsAnswer(e.canId, f.canId, 0)
    && e.data[..4] == f.data[..4] && 256 * e.data[4] as int + e.data[5] == f.torqueRaw
  }

  /** One answer per motor: each motor with an id inside the table takes its own over. */
  method ReceiveCycle(handler: RxHandler, motors: seq<RobstrideMotor>, echoes: seq<RxFrame>)
    requires Routes(handler, motors) && |echoes| == |motors| && WholeFrames(echoes)
    requires forall k :: 0 <= k < |motors| ==> IsAnswer(echoes[k].canId, motors[k].canId, 0)
    modifies set m | m in motors :: m`feedback
    ensures forall k :: 0 <= k < |motors| ==>
              if 0 <= motors[k].canId < MAX_ID then Reads(motors[k].feedback, motors[k].kind, echoes[k].data)
              else motors[k].feedback == old(motors[k].feedback)
  {
    hide Scaled, ParseRxFrame, Reads, IsAnswer;
    for n := 0 to |motors|
      invariant forall k :: 0 <= k < |motors| ==>
                  if k < n && 0 <= motors[k].canId < MAX_ID then
                    Reads(motors[k].feedback, motors[k].kind, echoes[k].data)
                  else motors[k].feedback == old(motors[k].feedback)
    {
      AnswerIsParsed(echoes[n], motors[n].canId, 0);
      var stop := handler.HandleFrame(echoes[n]);
      assert !stop;
    }
  }

  /** `pos` is the target, less than one step too low, as long as the target less the offset is
      within full scale; otherwise it is what full scale leaves of the target. */
  predicate ComesBack(target: real, posOffset: real, pos: real) {
    && 0.0 <= Clamp(target - posOffset, -POS_SCALE, POS_SCALE) + posOffset - pos < POS_SCALE / 32767.0
    && (Abs(target - posOffset) <= POS_SCALE ==> 0.0 <= target - pos < POS_SCALE / 32767.0)
  }

  /** Out and back: if every motor answers with the codes it was sent, each slot whose motor has
      an id inside the table publishes its commanded position back. */
  method CommandedComesBack(
    handler: RxHandler, motors: seq<RobstrideMotor>, snapshot: seq<Control>, answer: CommandFrame -> RxFrame)
    returns (fb: array<Feedback>)
    requires Fleet(motors) && Routes(handler, motors) && |snapshot| == MOTOR_NUM
    requires forall f, canId :: FrameFor(f, canId) && 0 <= canId < 256 ==> Echoes(answer(f), f)
    modifies set m | m in motors :: m`control, set m | m in motors :: m`feedback
    ensures fresh(fb) && fb.Length == MOTOR_NUM
    ensures forall i :: 0 <= i < MOTOR_NUM && SLOT_CAN_ID[i] < MAX_ID ==>
              ComesBack(Clamp(snapshot[i].pos, -POS_SCALE, POS_SCALE), MotorOf(motors, i).posOffset, fb[i].pos)
  {
    hide Stands, FrameFor, Echoes, Clamp, ComesBack, IsAnswer, Reads;
    var frames := ControlCycle(motors, snapshot);
    SlotsMeetTheirMotors();
    MotorsDiffer(motors);
    var echoes := seq(MOTOR_NUM, k requires 0 <= k < MOTOR_NUM => answer(frames[k]));
    forall k | 0 <= k < MOTOR_NUM
      ensures Echoes(echoes[k], frames[k]) && |echoes[k].data| == 8 && IsAnswer(echoes[k].canId, motors[k].canId, 0)
    {
      assert FrameFor(frames[k], motors[k].canId) && 0 <= motors[k].canId < 256;
      EchoIsAnswer(echoes[k], frames[k], motors[k].canId);
    }
    ReceiveCycle(handler, motors, echoes);
    fb := CollectFeedback(motors);
    forall i | 0 <= i < MOTOR_NUM && SLOT_CAN_ID[i] < MAX_ID
      ensures ComesBack(Clamp(snapshot[i].pos, -POS_SCALE, POS_SCALE), MotorOf(motors, i).posOffset, fb[i].pos)
    {
      var m, k := MotorOf(motors, i), VECTOR_INDEX[i];
      PositionComesBack(
        frames[k], echoes[k], m.kind, m.canId, m.posOffset,
        Control(Clamp(snapshot[i].pos, -POS_SCALE, POS_SCALE), old(m.control.vel), snapshot[i].kp, snapshot[i].kd,
                old(m.control.ffTorque)), m.feedback);
    }
  }

  lemma EchoIsAnswer(e: RxFrame, f: CommandFrame, canId: int)
    requires Echoes(e, f) && FrameFor(f, canId)
    ensures |e.data| == 8 && IsAnswer(e.canId, canId, 0)
  {
  }

  lemma PositionComesBack(
    f: CommandFrame, e: RxFrame, kind: MotorType, canId: int, posOffset: real, c: Control, fb: Feedback)
    requires Stands(f, kind, canId, posOffset, c) && Echoes(e, f) && Reads(fb, kind, e.data)
    ensures ComesBack(c.pos, posOffset, fb.pos + posOffset)
  {
    hide ScalesOf, NearGain, IsAnswer, ComesBack;
    EchoedPosition(kind, f, e, fb);
    var d: seq<int> := f.data;
    hide Echoes, Reads;
    NearComesBack(c.pos, posOffset, 256 * d[0] + d[1]);
  }

  lemma NearComesBack(target: real, posOffset: real, code: int)
    requires Near(target - posOffset, code, POS_SCALE)
    ensures ComesBack(target, posOffset, (code as real / 32767.0 - 1.0) * POS_SCALE + posOffset)
  {
  }

  lemma EchoedPosition(kind: MotorType, f: CommandFrame, e: RxFrame, fb: Feedback)
    requires Echoes(e, f) && Reads(fb, kind, e.data)
    ensures var d: seq<int> := f.data; fb.pos == ((256 * d[0] + d[1]) as real / 32767.0 - 1.0) * POS_SCALE
  {
    assert e.data[0] == e.data[..4][0] == f.data[0] && e.data[1] == e.data[..4][1] == f.data[1];
  }

  // ---------------------------------------------------------------------------
  // From the shared block to the motors
  // ---------------------------------------------------------------------------

  const BLOCK_WORDS: nat := 5 * MOTOR_NUM

  /** A control block is twelve times position, velocity, the two gains and the torque. */
  function Unpack(block: seq<real>): (controls: seq<Control>)
    requires |block| == BLOCK_WORDS
    ensures |controls| == MOTOR_NUM
  {
    seq(MOTOR_NUM, i requires 0 <= i < MOTOR_NUM =>
      Control(block[5 * i], block[5 * i + 1], block[5 * i + 2], block[5 * i + 3], block[5 * i + 4]))
  }

  /** A successful read followed by a control cycle: all twelve frames stand for slots of one
      published block, the current one throughout the read, whatever the writer did meanwhile. */
  method FollowRead(
    motors: seq<RobstrideMotor>, buf: seq<real>,
    ghost states: seq<Seqlock.State<real>>, ghost acts: seq<Seqlock.Action<real>>,
    ghost r: nat, ghost i: nat, ghost j: nat)
    returns (frames: seq<CommandFrame>, ghost block: seq<real>)
    requires Fleet(motors) && |buf| == BLOCK_WORDS
    requires Seqlock.Attempt(states, acts, r, i, j) && Seqlock.Succeeds(states, r, j) && Seqlock.NoWrap(states, i, j)
    requires states[j + 1].readers[r].dst == buf
    modifies set m | m in motors :: m`control
    ensures |block| == BLOCK_WORDS && block in states[i].published
    ensures forall k :: i <= k <= j + 1 ==> states[k].published != [] && states[k].Current() == block
    ensures |frames| == MOTOR_NUM
    ensures forall slot :: 0 <= slot < MOTOR_NUM ==>
              var m := MotorOf(motors, slot);
              Stands(frames[VECTOR_INDEX[slot]], m.kind, SLOT_CAN_ID[slot], m.posOffset,
                     Control(Clamp(block[5 * slot], -POS_SCALE, POS_SCALE), old(m.control.vel),
                             block[5 * slot + 2], block[5 * slot + 3], old(m.control.ffTorque)))
  {
    Seqlock.NoTornRead(states, acts, r, i, j);
    block := buf;
    assert i <= i <= j + 1 && states[i].Current() == block;
    hide Seqlock.Attempt, Seqlock.Succeeds, Stands, Clamp;
    frames := ControlCycle(motors, Unpack(buf));
  }
}
