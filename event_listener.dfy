/**
 * com.enea.jcarder.agent.EventListener: the callback the instrumented
 * code calls before every monitor enter and exit.  A monitor is first
 * classified by its class name, once per class: classes matched by no
 * include filter are ignored, classes matched by a class-level filter are
 * represented by the first instance seen, and all others are tracked per
 * instance.  A monitor that is not ignored gets a lock id and a context id
 * and is reported as one lock event.
 *
 * The event sink, LockEventListenerIfc.onLockEvent, is recorded as the
 * sequence of events it received, and the ids come from the context file
 * the agent writes (ContextFileWriter).  System properties enter as
 * parameters.  A class is identified by its name and its defining loader,
 * as a Class object is.
 */
module EventListeners {
  import opened Wrappers
  import opened JavaLang
  import opened LockingContexts
  import opened Logging
  import Counters
  import CFW = ContextFileWriter
  import opened LockIdGenerators
  import opened LockingContextIdCaches

  const CLASS_LEVEL_PROPERTY: string := "jcarder.classLevel"
  const INCLUDE_PROPERTY: string := "jcarder.include"
  const ENTERED_MONITORS_LOG_INTERVAL: int := 100000

  /** String.trim on every token. */
  function TrimAll(tokens: seq<string>): (r: seq<string>)
    ensures |r| == |tokens|
    ensures forall i :: 0 <= i < |r| ==> r[i] == Trim(tokens[i])
  {
    seq(|tokens|, i requires 0 <= i < |tokens| => Trim(tokens[i]))
  }

  /**
   * getFilterList: the property, or its default (" " when everything is
   * accepted by default, "" otherwise), cut into comma-free tokens by a
   * StringTokenizer, each token trimmed.
   */
  function FilterList(property: Option<string>, defaultAcceptAll: bool): (r: seq<string>)
  {
    TrimAll(Tokenize(property.GetOr(if defaultAcceptAll then " " else ""), ','))
  }

  /** Every filter is trimmed: it neither starts nor ends with a character up to U+0020. */
  lemma FilterListTrimmed(property: Option<string>, defaultAcceptAll: bool, i: int)
    requires 0 <= i < |FilterList(property, defaultAcceptAll)|
    ensures var f := FilterList(property, defaultAcceptAll)[i]; f == [] || (!IsTrimmed(f[0]) && !IsTrimmed(f[|f| - 1]))
  {
  }

  /** The default include filter is the one empty prefix, which every class name starts with. */
  lemma DefaultIncludeAcceptsAll(className: string)
    ensures FilterList(None, true) == [""]
    ensures MatchesAny(className, FilterList(None, true))
  {
    assert SplitAll(" ", ',') == [" "];
    assert NonEmpty([" "]) == [" "];
    assert TrimLeft(" ") == "" by { assert " "[1..] == ""; }
    assert TrimAll([" "]) == [""];
    assert StartsWith(className, FilterList(None, true)[0]);
  }

  /** The default class-level filter list is empty, so no class is handled on class level by default. */
  lemma DefaultClassLevelEmpty(className: string)
    ensures FilterList(None, false) == []
    ensures !MatchesAny(className, FilterList(None, false))
  {
    assert SplitAll("", ',') == [""];
    assert NonEmpty([""]) == [];
  }

  /** Some filter is a prefix of the class name. */
  predicate MatchesAny(className: string, filters: seq<string>)
  {
    exists i :: 0 <= i < |filters| && StartsWith(className, filters[i])
  }

  /** The loop of checkIncludeFilter and checkGroupLevelFilter: stop at the first filter that is a prefix. */
  method StartsWithAny(className: string, filters: seq<string>) returns (found: bool)
    ensures found <==> MatchesAny(className, filters)
  {
    found := false;
    var i := 0;
    while i < |filters|
      invariant 0 <= i <= |filters|
      invariant !found
      invariant forall j :: 0 <= j < i ==> !StartsWith(className, filters[j])
    {
      if StartsWith(className, filters[i]) {
        found := true;
        return;
      }
      i := i + 1;
    }
  }

  /** A Lock record can be made for every object whose class name can be written. */
  lemma LockOfWritable(o: JavaObject)
    requires CFW.IsWritable(o.className)
    ensures CFW.IsWritableLock(LockOf(o))
  {
  }

  /** The three strings of a context fit the writer's largest buffer. */
  predicate FitsContext(c: LockingContext)
  {
    CFW.Fits(c.threadName) && CFW.Fits(c.lockReference) && CFW.Fits(c.methodWithClass)
  }

  /**
   * What monitorInfoCache records for a class: sentinelIgnore,
   * sentinelInstanceLevel, or the first instance seen (class level).
   */
  datatype Classification = Ignore | InstanceLevel | ClassLevel(first: JavaObject)

  /** What checkMonitor returns: sentinelIgnore, or the monitor to report (null passes through). */
  datatype Classified = Ignored | Tracked(monitor: Option<JavaObject>)

  /** One call of onLockEvent(isLock, lockId, contextId, threadId). */
  datatype MonitorEvent = MonitorEvent(isLock: bool, lockId: int, contextId: int, threadId: int)

  class EventListener {
    const lockIdGenerator: LockIdGenerator
    const contextCache: LockingContextIdCache
    const contextWriter: CFW.ContextFileWriter
    const numberOfEnteredMonitors: Counters.Counter
    const filterClassLevel: seq<string>
    const filterInclude: seq<string>
    var monitorInfoCache: map<JavaClass, Classification>
    var events: seq<MonitorEvent>

    /** checkFilters without its caching: the classification of a monitor not seen before. */
    function Classify(monitor: JavaObject): (r: Classification)
      ensures r == Ignore <==> !MatchesAny(monitor.className, filterInclude)
      ensures r == InstanceLevel <==>
        MatchesAny(monitor.className, filterInclude) && !MatchesAny(monitor.className, filterClassLevel)
      ensures r.ClassLevel? ==> r.first == monitor
    {
      if !MatchesAny(monitor.className, filterInclude) then Ignore
      else if MatchesAny(monitor.className, filterClassLevel) then ClassLevel(monitor)
      else InstanceLevel
    }

    /**
     * Every cached classification is the one the filters give for the
     * class's name, and a class-level class is represented by an instance
     * of that very class.
     */
    ghost predicate CacheSound(cache: map<JavaClass, Classification>)
    {
      forall cl :: cl in cache ==>
        (cache[cl] == Ignore <==> !MatchesAny(cl.name, filterInclude))
        && (cache[cl] == InstanceLevel <==> MatchesAny(cl.name, filterInclude) && !MatchesAny(cl.name, filterClassLevel))
        && (cache[cl].ClassLevel? ==> cache[cl].first.Class() == cl)
    }

    ghost predicate Valid()
      reads this, lockIdGenerator, lockIdGenerator.idMap, contextCache, contextWriter
    {
      lockIdGenerator.contextWriter == contextWriter
      && contextCache.ras == contextWriter
      && lockIdGenerator.Valid()
      && contextCache.Valid()
      && numberOfEnteredMonitors.logInterval == ENTERED_MONITORS_LOG_INTERVAL
      && CacheSound(monitorInfoCache)
    }

    /** The cache after checkMonitor: a monitor of a class not yet cached adds its class. */
    function CacheAfter(cache: map<JavaClass, Classification>, monitor: Option<JavaObject>): map<JavaClass, Classification>
    {
      if monitor.None? || monitor.value.Class() in cache then cache
      else cache[monitor.value.Class() := Classify(monitor.value)]
    }

    /** What checkMonitor returns given the cache it starts from. */
    function Outcome(cache: map<JavaClass, Classification>, monitor: Option<JavaObject>): Classified
    {
      if monitor.None? then Tracked(None)
      else match CacheAfter(cache, monitor)[monitor.value.Class()]
        case Ignore => Ignored
        case InstanceLevel => Tracked(monitor)
        case ClassLevel(first) => Tracked(Some(first))
    }

    constructor (logger: Logger, writer: CFW.ContextFileWriter,
                 classLevelProperty: Option<string>, includeProperty: Option<string>)
      requires writer.Valid()
      ensures Valid()
      ensures contextWriter == writer && events == [] && monitorInfoCache == map[]
      ensures filterClassLevel == FilterList(classLevelProperty, false)
      ensures filterInclude == FilterList(includeProperty, true)
      ensures fresh(lockIdGenerator) && fresh(lockIdGenerator.idMap) && fresh(contextCache) && fresh(numberOfEnteredMonitors)
      ensures lockIdGenerator.idMap.contents == map[] && contextCache.cache == map[]
    {
      filterClassLevel := FilterList(classLevelProperty, false);
      filterInclude := FilterList(includeProperty, true);
      contextWriter := writer;
      lockIdGenerator := new LockIdGenerator(writer);
      contextCache := new LockingContextIdCache(writer);
      numberOfEnteredMonitors := new Counters.Counter("Entered Monitors", logger, ENTERED_MONITORS_LOG_INTERVAL);
      monitorInfoCache := map[];
      events := [];
    }

    /** checkIncludeFilter. */
    method CheckIncludeFilter(className: string) returns (r: bool)
      ensures r <==> MatchesAny(className, filterInclude)
    {
      r := StartsWithAny(className, filterInclude);
    }

    /** checkGroupLevelFilter: the monitor itself on class level, and otherwise the instance-level sentinel. */
    method CheckGroupLevelFilter(monitor: JavaObject, className: string) returns (r: Classification)
      ensures MatchesAny(className, filterClassLevel) ==> r == ClassLevel(monitor)
      ensures !MatchesAny(className, filterClassLevel) ==> r == InstanceLevel
    {
      var classLevelFilterMatch := StartsWithAny(className, filterClassLevel);
      r := if classLevelFilterMatch then ClassLevel(monitor) else InstanceLevel;
    }

    /** checkFilters: classify a monitor of a class not seen before and cache the result. */
    method CheckFilters(monitor: JavaObject) returns (r: Classification)
      modifies this
      ensures r == Classify(monitor)
      ensures monitorInfoCache == old(monitorInfoCache)[monitor.Class() := r]
      ensures events == old(events)
    {
      var included := CheckIncludeFilter(monitor.className);
      if included {
        r := CheckGroupLevelFilter(monitor, monitor.className);
      } else {
        r := Ignore;
      }
      monitorInfoCache := monitorInfoCache[monitor.Class() := r];
    }

    /** checkMonitor: classify through the per-class cache; a null monitor passes through. */
    method CheckMonitor(monitor: Option<JavaObject>) returns (r: Classified)
      requires CacheSound(monitorInfoCache)
      modifies this
      ensures CacheSound(monitorInfoCache)
      ensures r == Outcome(old(monitorInfoCache), monitor)
      ensures monitorInfoCache == CacheAfter(old(monitorInfoCache), monitor)
      ensures events == old(events)
    {
      r := Tracked(monitor);
      if monitor.Some? {
        var firstOccurrence;
        if monitor.value.Class() in monitorInfoCache {
          firstOccurrence := monitorInfoCache[monitor.value.Class()];
        } else {
          firstOccurrence := CheckFilters(monitor.value);
        }
        match firstOccurrence
        case Ignore => r := Ignored;
        case InstanceLevel =>
        case ClassLevel(first) => r := Tracked(Some(first));
      }
    }

    /**
     * Both ids for a report can be had: each is already remembered, or its
     * record fits the writer's buffer.
     */
    ghost predicate Reportable(monitor: JavaObject, context: LockingContext)
      reads this, lockIdGenerator, lockIdGenerator.idMap, contextCache
    {
      (monitor in lockIdGenerator.idMap.contents || CFW.Fits(monitor.className))
      && (context in contextCache.cache || FitsContext(context))
    }

    /**
     * lockEvent: the monitor's lock id and the context's id, reported with
     * the thread.  A failed write is passed on and nothing is reported.
     */
    method LockEvent(isLock: bool, classifiedMonitor: JavaObject, context: LockingContext, thread: int) returns (r: Result<()>)
      requires Valid() && CFW.IsWritable(classifiedMonitor.className) && CFW.IsWritableContext(context)
      modifies this, lockIdGenerator, lockIdGenerator.idMap, contextWriter, contextCache
      ensures Valid()
      ensures monitorInfoCache == old(monitorInfoCache)
      ensures old(contextWriter.Contents()) <= contextWriter.Contents()
      ensures r.Ok? <==> old(Reportable(classifiedMonitor, context))
      ensures r.Ok? ==> classifiedMonitor in lockIdGenerator.idMap.contents && context in contextCache.cache
      ensures r.Ok? ==>
        lockIdGenerator.idMap.contents == old(lockIdGenerator.idMap.contents)[classifiedMonitor := lockIdGenerator.idMap.contents[classifiedMonitor]]
      ensures r.Ok? ==> contextCache.cache == old(contextCache.cache)[context := contextCache.cache[context]]
      ensures r.Ok? ==>
        events == old(events) + [MonitorEvent(isLock, lockIdGenerator.idMap.contents[classifiedMonitor], contextCache.cache[context], thread)]
      ensures r.Err? ==> events == old(events)
    {
      LockOfWritable(classifiedMonitor);
      var newLockId := lockIdGenerator.AcquireLockId(classifiedMonitor);
      if newLockId.Err? {
        r := Err(newLockId.error);
      } else {
        var newContextId := contextCache.AcquireLockingContextId(context);
        if newContextId.Err? {
          r := Err(newContextId.error);
        } else {
          events := events + [MonitorEvent(isLock, newLockId.value, newContextId.value, thread)];
          r := Ok(());
        }
      }
    }

    /**
     * beforeMonitorEnter: an ignored monitor reports nothing; any other
     * counts as entered and is reported as one lock event for the monitor
     * it is classified as.  A null monitor fails when its Lock is made, and
     * a failed write is passed on.
     */
    method BeforeMonitorEnter(monitor: Option<JavaObject>, context: LockingContext, thread: int) returns (r: Result<()>)
      requires Valid() && CFW.IsWritableContext(context)
      requires monitor.Some? ==> CFW.IsWritable(monitor.value.className)
      modifies this, lockIdGenerator, lockIdGenerator.idMap, contextWriter, contextCache,
               numberOfEnteredMonitors, numberOfEnteredMonitors.logger.handlers
      ensures Valid()
      ensures monitorInfoCache == CacheAfter(old(monitorInfoCache), monitor)
      ensures Outcome(old(monitorInfoCache), monitor) == Ignored ==>
        r.Ok? && events == old(events) && numberOfEnteredMonitors.value == old(numberOfEnteredMonitors.value)
      ensures Outcome(old(monitorInfoCache), monitor) != Ignored ==>
        numberOfEnteredMonitors.value == Wrap32(old(numberOfEnteredMonitors.value) + 1)
      ensures Outcome(old(monitorInfoCache), monitor) == Tracked(None) ==>
        r == Err(NullPointer) && events == old(events)
      ensures Outcome(old(monitorInfoCache), monitor).Tracked? && Outcome(old(monitorInfoCache), monitor).monitor.Some? ==>
        var m := Outcome(old(monitorInfoCache), monitor).monitor.value;
        (r.Ok? <==> old(Reportable(m, context)))
        && (r.Ok? ==>
              m in lockIdGenerator.idMap.contents && context in contextCache.cache
              && events == old(events) + [MonitorEvent(true, lockIdGenerator.idMap.contents[m], contextCache.cache[context], thread)])
        && (r.Err? ==> events == old(events))
    {
      var classifiedMonitor := CheckMonitor(monitor);
      r := Ok(());
      if classifiedMonitor != Ignored {
        numberOfEnteredMonitors.Increment();
        if classifiedMonitor.monitor.None? {
          return Err(NullPointer);
        }
        r := LockEvent(true, classifiedMonitor.monitor.value, context, thread);
      }
    }

    /** beforeMonitorExit: as beforeMonitorEnter, without counting, and reported as an exit. */
    method BeforeMonitorExit(monitor: Option<JavaObject>, context: LockingContext, thread: int) returns (r: Result<()>)
      requires Valid() && CFW.IsWritableContext(context)
      requires monitor.Some? ==> CFW.IsWritable(monitor.value.className)
      modifies this, lockIdGenerator, lockIdGenerator.idMap, contextWriter, contextCache
      ensures Valid()
      ensures monitorInfoCache == CacheAfter(old(monitorInfoCache), monitor)
      ensures Outcome(old(monitorInfoCache), monitor) == Ignored ==> r.Ok? && events == old(events)
      ensures Outcome(old(monitorInfoCache), monitor) == Tracked(None) ==>
        r == Err(NullPointer) && events == old(events)
      ensures Outcome(old(monitorInfoCache), monitor).Tracked? && Outcome(old(monitorInfoCache), monitor).monitor.Some? ==>
        var m := Outcome(old(monitorInfoCache), monitor).monitor.value;
        (r.Ok? <==> old(Reportable(m, context)))
        && (r.Ok? ==>
              m in lockIdGenerator.idMap.contents && context in contextCache.cache
              && events == old(events) + [MonitorEvent(false, lockIdGenerator.idMap.contents[m], contextCache.cache[context], thread)])
        && (r.Err? ==> events == old(events))
    {
      var classifiedMonitor := CheckMonitor(monitor);
      r := Ok(());
      if classifiedMonitor != Ignored {
        if classifiedMonitor.monitor.None? {
          return Err(NullPointer);
        }
        r := LockEvent(false, classifiedMonitor.monitor.value, context, thread);
      }
    }
  }

  /** A monitor is ignored exactly when no include filter matches its class. */
  lemma IgnoredIffNotIncluded(l: EventListener, cache: map<JavaClass, Classification>, monitor: JavaObject)
    requires l.CacheSound(cache)
    ensures l.Outcome(cache, Some(monitor)) == Ignored <==> !MatchesAny(monitor.className, l.filterInclude)
  {
  }

  /** An included monitor of a class with no class-level filter is reported as itself. */
  lemma InstanceLevelIsItself(l: EventListener, cache: map<JavaClass, Classification>, monitor: JavaObject)
    requires l.CacheSound(cache)
    requires MatchesAny(monitor.className, l.filterInclude) && !MatchesAny(monitor.className, l.filterClassLevel)
    ensures l.Outcome(cache, Some(monitor)) == Tracked(Some(monitor))
  {
  }

  /**
   * On class level, every later monitor of the same class is reported as
   * the one classified first, which is an instance of that class.
   */
  lemma ClassLevelSharesFirst(l: EventListener, cache: map<JavaClass, Classification>, a: JavaObject, b: JavaObject)
    requires l.CacheSound(cache) && a.Class() == b.Class()
    requires MatchesAny(a.className, l.filterInclude) && MatchesAny(a.className, l.filterClassLevel)
    ensures l.CacheSound(l.CacheAfter(cache, Some(a)))
    ensures l.Outcome(l.CacheAfter(cache, Some(a)), Some(b)) == l.Outcome(cache, Some(a))
    ensures l.Outcome(cache, Some(a)).Tracked? && l.Outcome(cache, Some(a)).monitor.Some?
    ensures l.Outcome(cache, Some(a)).monitor.value.Class() == a.Class()
  {
  }

  /**
   * Classes are told apart by their loader as well as their name: on class
   * level, a monitor whose class has the same name as another's but a
   * different loader gets a cache entry of its own and represents itself.
   */
  lemma LoadersKeptApart(l: EventListener, cache: map<JavaClass, Classification>, a: JavaObject, b: JavaObject)
    requires l.CacheSound(cache) && a.className == b.className && a.loader != b.loader
    requires a.Class() !in cache && b.Class() !in cache
    requires MatchesAny(a.className, l.filterInclude) && MatchesAny(a.className, l.filterClassLevel)
    ensures l.Outcome(cache, Some(a)) == Tracked(Some(a))
    ensures l.Outcome(l.CacheAfter(cache, Some(a)), Some(b)) == Tracked(Some(b))
    ensures b.Class() in l.CacheAfter(l.CacheAfter(cache, Some(a)), Some(b))
    ensures a.Class() in l.CacheAfter(l.CacheAfter(cache, Some(a)), Some(b))
  {
  }

  /** With both properties unset every monitor is reported as itself. */
  lemma DefaultsTrackEveryInstance(l: EventListener, cache: map<JavaClass, Classification>, monitor: JavaObject)
    requires l.filterInclude == FilterList(None, true) && l.filterClassLevel == FilterList(None, false)
    requires l.CacheSound(cache)
    ensures l.Outcome(cache, Some(monitor)) == Tracked(Some(monitor))
  {
    DefaultIncludeAcceptsAll(monitor.className);
    DefaultClassLevelEmpty(monitor.className);
  }
}
