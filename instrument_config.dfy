/**
 * com.enea.jcarder.agent.instrument.InstrumentConfig: whether transformed
 * classes are dumped to files (off until set) and validated (always on).
 */
module InstrumentConfigs {

  class InstrumentConfig {
    const validateTransformedClasses: bool
    var dumpClassFiles: bool

    constructor ()
      ensures !dumpClassFiles && validateTransformedClasses
    {
      validateTransformedClasses := true;
      dumpClassFiles := false;
    }

    method SetDumpClassFiles(dump: bool)
      modifies this
      ensures dumpClassFiles == dump
    {
      dumpClassFiles := dump;
    }
  }
}
