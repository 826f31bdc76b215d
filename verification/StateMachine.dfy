/** The six-mode controller state machine. */
module StateMachine {
  import Op = OperatorCommand

  type Code = Op.Code

  datatype Mode = DISABLED | ENABLING | NORMAL | DAMPING | ZERO_SETTING | ESTOP

  /** The transition table, one row per mode. `timedOut`: the enable duration has passed since
      the current mode was entered. */
  function NextMode(mode: Mode, code: Code, timedOut: bool): Mode {
    match mode
    case ESTOP => if code == Op.RESET_FAULT then DISABLED else ESTOP
    case DISABLED =>
      (match code
       case NONE => DISABLED
       case ENABLE => ENABLING
       case DISABLE => DISABLED
       case DAMPING => DAMPING
       case ZERO_SET => ZERO_SETTING
       case ESTOP => ESTOP
       case RESET_FAULT => DISABLED
       case RUN => DISABLED)
    case ENABLING =>
      (match code
       case NONE => if timedOut then DAMPING else ENABLING
       case ENABLE => if timedOut then DAMPING else ENABLING
       case DISABLE => DISABLED
       case DAMPING => DAMPING
       case ZERO_SET => ZERO_SETTING
       case ESTOP => ESTOP
       case RESET_FAULT => DISABLED
       case RUN => if timedOut then DAMPING else ENABLING)
    case NORMAL =>
      (match code
       case NONE => NORMAL
       case ENABLE => NORMAL
       case DISABLE => DISABLED
       case DAMPING => DAMPING
       case ZERO_SET => ZERO_SETTING
       case ESTOP => ESTOP
       case RESET_FAULT => DISABLED
       case RUN => NORMAL)
    case DAMPING =>
      (match code
       case NONE => DAMPING
       case ENABLE => DAMPING
       case DISABLE => DISABLED
       case DAMPING => DAMPING
       case ZERO_SET => ZERO_SETTING
       case ESTOP => ESTOP
       case RESET_FAULT => DISABLED
       case RUN => NORMAL)
    case ZERO_SETTING =>
      (match code
       case NONE => DISABLED
       case ENABLE => ENABLING
       case DISABLE => DISABLED
       case DAMPING => DAMPING
       case ZERO_SET => ZERO_SETTING
       case ESTOP => ESTOP
       case RESET_FAULT => DISABLED
       case RUN => ZERO_SETTING)
  }

  /** What each command does, by its number in the operator's record: 1 ENABLE, 2 DISABLE, 3 DAMPING,
      4 ZERO_SET, 5 ESTOP, 6 RESET_FAULT, 7 RUN; any other number asks for nothing. */
  ghost predicate Obeys(before: Mode, command: nat, timedOut: bool, after: Mode) {
    && (command == 5 ==> after == ESTOP)
    && (before == ESTOP && command != 6 ==> after == ESTOP)
    && (command == 6 ==> after == DISABLED)
    && (before != ESTOP && command == 2 ==> after == DISABLED)
    && (before != ESTOP && command == 3 ==> after == DAMPING)
    && (before != ESTOP && command == 4 ==> after == ZERO_SETTING)
    && ((before == DISABLED || before == ZERO_SETTING) && command == 1 ==> after == ENABLING)
    && (before == DAMPING && command == 7 ==> after == NORMAL)
    && (before == ENABLING && (command < 2 || command > 6) ==> after == if timedOut then DAMPING else ENABLING)
    && (before == ZERO_SETTING && (command == 0 || command > 7) ==> after == DISABLED)
    && (before == ZERO_SETTING && command == 7 ==> after == ZERO_SETTING)
    && (before == DISABLED && (command == 0 || command > 6) ==> after == DISABLED)
    && (before == DAMPING && (command < 2 || command > 7) ==> after == DAMPING)
    && (before == NORMAL && (command < 2 || command > 6) ==> after == NORMAL)
  }

  /** Every row and every column of the table: command by command it is what was asked for. */
  lemma TableByCommand(before: Mode, code: Code, timedOut: bool, after: Mode)
    ensures Obeys(before, code.Raw(), timedOut, after) <==> after == NextMode(before, code, timedOut)
  {
  }

  class ControllerStateMachine {
    const enableDuration: real
    var mode: Mode
    var modeEnterTime: real

    constructor (enableDuration: real, now: real)
      requires enableDuration >= 0.0
      ensures this.enableDuration == enableDuration
      ensures mode == DISABLED && modeEnterTime == now
    {
      this.enableDuration := enableDuration;
      mode := DISABLED;
      modeEnterTime := now;
    }

    method Enter(mode: Mode, now: real)
      modifies this
      ensures this.mode == mode
      ensures modeEnterTime == if old(this.mode) == mode then old(modeEnterTime) else now
    {
      if this.mode == mode {
        return;
      }
      this.mode := mode;
      modeEnterTime := now;
    }

    /** The cascade of guards takes the transition of the table, and does what the command says. */
    method Update(code: Code, now: real)
      modifies this
      ensures Obeys(old(mode), code.Raw(), now - old(modeEnterTime) >= enableDuration, mode)
      ensures mode == NextMode(old(mode), code, now - old(modeEnterTime) >= enableDuration)
      ensures modeEnterTime == if mode == old(mode) then old(modeEnterTime) else now
    {
      if code == Op.ESTOP {
        Enter(ESTOP, now);
        return;
      }
      if mode == ESTOP {
        if code == Op.RESET_FAULT {
          Enter(DISABLED, now);
        }
        return;
      }
      if code == Op.DISABLE {
        Enter(DISABLED, now);
        return;
      }
      if code == Op.ENABLE {
        if mode == DISABLED || mode == ZERO_SETTING {
          Enter(ENABLING, now);
          return;
        }
        if mode != ENABLING {
          return;
        }
      }
      if code == Op.RUN {
        if mode == DAMPING {
          Enter(NORMAL, now);
          return;
        }
        if mode == NORMAL {
          return;
        }
      }
      if code == Op.DAMPING {
        Enter(DAMPING, now);
        return;
      }
      if code == Op.ZERO_SET {
        Enter(ZERO_SETTING, now);
        return;
      }
      if code == Op.RESET_FAULT {
        Enter(DISABLED, now);
        return;
      }
      if mode == ZERO_SETTING && code == Op.NONE {
        Enter(DISABLED, now);
        return;
      }
      if mode == ENABLING {
        if now - modeEnterTime >= enableDuration {
          Enter(DAMPING, now);
        }
      }
    }
  }
}
