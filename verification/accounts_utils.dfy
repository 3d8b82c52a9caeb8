/**
 * `do_with_retry`: call a function up to a bounded number of times, retrying
 * (after one back-off wait) only on the exception kinds it was told to catch.
 *
 * The called function is a parameter `func(kwargs, n)`, the outcome of the
 * n-th call (0-based) given the keyword arguments it was passed.  Exception
 * classes are their names; an exception is caught when its name is in the
 * catch set.
 */
module RetryUtils {

  /** A keyword-argument value: an ordinary value, or one of the two control arguments. */
  datatype Arg = Plain(text: string) | CatchArg(kinds: set<string>) | AttemptsArg(count: int)

  type Kwargs = map<string, Arg>

  /** The outcome of one call of the wrapped function. */
  datatype CallResult<T> = Returned(value: T) | Raised(kind: string)

  /**
   * The outcome of the retry loop with the number of calls made and back-off
   * waits taken.  `NothingToReraise` is the bare `raise` reached when no
   * attempt was made at all (a non-positive attempt count).
   */
  datatype RetryResult<T> =
    | Success(value: T, calls: nat, waits: nat)
    | Failure(kind: string, calls: nat, waits: nat)
    | NothingToReraise

  const CatchKey: string := "_catch"
  const AttemptsKey: string := "_attempts"

  const DefaultCatch: set<string> := {"TransactionFailedError", "AppEngineTransactionFailedError"}
  const DefaultAttempts: int := 3

  /** The control arguments, when present, have the types the function expects. */
  predicate ControlArgsTyped(kwargs: Kwargs)
  {
    && (CatchKey in kwargs ==> kwargs[CatchKey].CatchArg?)
    && (AttemptsKey in kwargs ==> kwargs[AttemptsKey].AttemptsArg?)
  }

  function CatchOf(kwargs: Kwargs): set<string>
    requires ControlArgsTyped(kwargs)
  {
    if CatchKey in kwargs then kwargs[CatchKey].kinds else DefaultCatch
  }

  function AttemptsOf(kwargs: Kwargs): int
    requires ControlArgsTyped(kwargs)
  {
    if AttemptsKey in kwargs then kwargs[AttemptsKey].count else DefaultAttempts
  }

  /** The keyword arguments passed on to the function: the two control arguments are popped. */
  function Forwarded(kwargs: Kwargs): (fwd: Kwargs)
    ensures CatchKey !in fwd && AttemptsKey !in fwd
    ensures forall k :: k in kwargs && k != CatchKey && k != AttemptsKey ==> k in fwd && fwd[k] == kwargs[k]
    ensures forall k :: k in fwd ==> k in kwargs
  {
    kwargs - {CatchKey, AttemptsKey}
  }

  predicate Caught<T>(res: CallResult<T>, catch: set<string>)
  {
    res.Raised? && res.kind in catch
  }

  /** The first `k` calls all raised caught exceptions. */
  predicate CaughtUpTo<T>(func: (Kwargs, nat) -> CallResult<T>, fwd: Kwargs, catch: set<string>, k: nat)
  {
    forall j: nat :: j < k ==> Caught(func(fwd, j), catch)
  }

  /**
   * The retry loop.  The contract pins the result down completely: the run
   * stops at the first call that is not a caught exception; it returns that
   * call's value or propagates its exception; if every one of the attempts
   * raised a caught exception, the last one is re-raised.  One wait follows
   * every caught exception, the last one included.
   */
  method DoWithRetry<T>(func: (Kwargs, nat) -> CallResult<T>, kwargs: Kwargs) returns (r: RetryResult<T>)
    requires ControlArgsTyped(kwargs)
    ensures var catch, attempts, fwd := CatchOf(kwargs), AttemptsOf(kwargs), Forwarded(kwargs);
      && (attempts <= 0 <==> r.NothingToReraise?)
      && (r.Success? ==>
            && 1 <= r.calls <= attempts
            && CaughtUpTo(func, fwd, catch, r.calls - 1)
            && func(fwd, r.calls - 1) == Returned(r.value)
            && r.waits == r.calls - 1)
      && (r.Failure? ==>
            && 1 <= r.calls <= attempts
            && CaughtUpTo(func, fwd, catch, r.calls - 1)
            && func(fwd, r.calls - 1) == Raised(r.kind)
            && (r.kind in catch ==> r.calls == attempts && r.waits == attempts)
            && (r.kind !in catch ==> r.waits == r.calls - 1))
  {
    var catch := CatchOf(kwargs);
    var attempts := AttemptsOf(kwargs);
    var fwd := Forwarded(kwargs);
    if attempts <= 0 {
      return NothingToReraise;
    }
    var n: nat := 0;
    var waits: nat := 0;
    var last: string := "";
    while n < attempts
      invariant n <= attempts
      invariant waits == n
      invariant CaughtUpTo(func, fwd, catch, n)
      invariant n > 0 ==> func(fwd, n - 1) == Raised(last) && last in catch
    {
      var res := func(fwd, n);
      match res {
        case Returned(v) =>
          return Success(v, n + 1, waits);
        case Raised(kind) =>
          if kind !in catch {
            return Failure(kind, n + 1, waits);
          }
          last := kind;
          waits := waits + 1;
      }
      n := n + 1;
    }
    return Failure(last, n, waits);
  }
}
