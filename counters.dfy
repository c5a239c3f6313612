/**
 * com.enea.jcarder.util.Counter and MaxValueCounter: named statistics
 * that report through a Logger.
 */
module Counters {
  import JavaLang
  import opened Logging

  class Counter {
    const name: string
    const logger: Logger
    const logInterval: int
    var value: int

    constructor (name: string, logger: Logger, logInterval: int)
      ensures this.name == name && this.logger == logger && this.logInterval == logInterval
      ensures value == 0
    {
      this.name := name;
      this.logger := logger;
      this.logInterval := logInterval;
      value := 0;
    }

    /** The level increment logs the value v at: FINE on each multiple of the interval, FINEST otherwise. */
    function LevelFor(v: int): Level
      requires logInterval != 0
    {
      if v % logInterval == 0 then FINE else FINEST
    }

    function Message(v: int): string
    {
      name + ": " + JavaLang.IntToString(v)
    }

    /**
     * increment: the value grows by one in int arithmetic (Integer.MAX_VALUE
     * wraps to Integer.MIN_VALUE); the new value is logged at FINE when it
     * is a multiple of the interval, and otherwise at FINEST only if FINEST
     * is loggable (publishing a non-loggable message appends nothing, so
     * both cases are the one expression below).  A zero interval makes
     * Java's % throw.
     */
    method Increment()
      requires logInterval != 0
      modifies this, logger.handlers
      ensures value == JavaLang.Wrap32(old(value) + 1)
      ensures forall i :: 0 <= i < |logger.handlers| ==>
        logger.handlers[i].destination ==
          old(logger.handlers[i].destination) + logger.Received(logger.handlers[i], LevelFor(value), Message(value))
    {
      value := JavaLang.Wrap32(value + 1);
      if value % logInterval == 0 {
        logger.PublishLog(FINE, Message(value));
      } else if logger.IsLoggable(FINEST) {
        logger.PublishLog(FINEST, Message(value));
      }
    }
  }

  /** After Integer.MAX_VALUE increments from zero the counter reads Integer.MIN_VALUE, not 2^31. */
  lemma IncrementWraps()
    ensures JavaLang.Wrap32(JavaLang.INT_MAX + 1) == JavaLang.INT_MIN
  {
  }

  class MaxValueCounter {
    const name: string
    const logger: Logger
    var value: int
    var maxValue: int

    constructor (name: string, logger: Logger)
      ensures this.name == name && this.logger == logger
      ensures value == 0 && maxValue == 0
    {
      this.name := name;
      this.logger := logger;
      value := 0;
      maxValue := 0;
    }

    /** set: the value becomes v; the maximum rises to v, with a FINE log, only when v exceeds it. */
    method Set(v: int)
      modifies this, logger.handlers
      ensures value == v
      ensures maxValue == if v > old(maxValue) then v else old(maxValue)
      ensures maxValue >= old(maxValue) && maxValue >= v
      ensures forall i :: 0 <= i < |logger.handlers| ==>
        logger.handlers[i].destination == old(logger.handlers[i].destination) +
          (if v > old(maxValue) then logger.Received(logger.handlers[i], FINE, "New " + name + ": " + JavaLang.IntToString(v))
           else "")
    {
      value := v;
      if value > maxValue {
        maxValue := value;
        logger.PublishLog(FINE, "New " + name + ": " + JavaLang.IntToString(maxValue));
      }
    }

    /** toString: the maximum in decimal. */
    function ToString(): (r: string)
      reads this
      ensures JavaLang.ParseInt(r) == maxValue
    {
      JavaLang.IntToStringRoundTrip(maxValue);
      JavaLang.IntToString(maxValue)
    }
  }
}
