/**
 * The branch selector: if_, else_if_, else_, and switch_ over case_ and default_. At the value
 * level a selector holds a flag and one or two zero-argument producers, and calling it calls
 * exactly the producer the flag picks; the type-level machinery that keeps the other branch
 * from being instantiated has no counterpart here.
 */
module IfConstexpr {
  import opened Wrappers

  /** The body of a lambda: what it returns, None for void. */
  type Body<T> = () -> Option<T>

  /**
   * A zero-argument callable: a lambda (tagged, so that a call can say which lambda ran,
   * and giving no value when it returns void), the no-op lambda `[]{}`, the forwarding
   * lambda if_ wraps around a plain callable, or a selector object, which is callable too.
   */
  datatype Producer<T> =
    | Lambda(tag: nat, body: Body<T>)
    | NoOp
    | Forwarding(target: Producer<T>)
    | Nested(selector: Selector<T>)

  /**
   * detail::if_constexpr<result, TrueT, FalseT>: the flag and the two stored callables; the
   * false one is absent (FalseT = nullptr_t) unless given.
   */
  datatype Selector<T> = Selector(result: bool, true_: Producer<T>, false_: Option<Producer<T>>)

  /** detail::else_: the wrapper marking a producer as the else branch. */
  datatype Else<T> = Else(then_: Producer<T>)

  /** detail::case_constexpr: a flag and the producer the case calls. */
  datatype Case<T> = Case(value: bool, case_: Producer<T>)

  /** What a call did: the tags of the lambdas that ran, in order, and the value returned (None for void). */
  datatype Outcome<T> = Outcome(ran: seq<nat>, value: Option<T>)

  /** A call that runs nothing and returns void. */
  function Nothing<T>(): Outcome<T> {
    Outcome([], None)
  }

  /** Calling a producer: at most one lambda runs, and a call in which none ran returns void. */
  function Invoke<T>(p: Producer<T>): (o: Outcome<T>)
    ensures |o.ran| <= 1
    ensures o.ran == [] ==> o.value == None
    decreases p
  {
    match p
    case Lambda(tag, body) => Outcome([tag], body())
    case NoOp => Nothing()
    case Forwarding(target) => Invoke(target)
    case Nested(selector) => Call(selector)
  }

  /**
   * if_constexpr::operator(), its three overloads: with a true flag the true producer's
   * result; with a false flag the false producer's result when there is one, and nothing
   * otherwise.
   */
  function Call<T>(s: Selector<T>): (o: Outcome<T>)
    ensures |o.ran| <= 1
    ensures o.ran == [] ==> o.value == None
    ensures s.result ==> o == Invoke(s.true_)
    ensures !s.result && s.false_.Some? ==> o == Invoke(s.false_.value)
    ensures !s.result && s.false_.None? ==> o == Nothing()
    decreases s
  {
    if s.result then Invoke(s.true_)
    else if s.false_.Some? then Invoke(s.false_.value)
    else Nothing()
  }

  /** else_: wraps the producer. */
  function MakeElse<T>(then_: Producer<T>): (e: Else<T>)
    ensures Invoke(e.then_) == Invoke(then_)
  {
    Else(then_)
  }

  /** if_ with an else_ wrapper: a selector over the true producer and the wrapped one, called at once. */
  function If<T>(result: bool, trueT: Producer<T>, else_: Else<T>): (o: Outcome<T>)
    ensures result ==> o == Invoke(trueT)
    ensures !result ==> o == Invoke(else_.then_)
  {
    Call(Selector(result, trueT, Some(else_.then_)))
  }

  /** if_ with any other callable: the callable wrapped in a forwarding lambda becomes the false producer. */
  function IfCallable<T>(result: bool, trueT: Producer<T>, elseT: Producer<T>): (o: Outcome<T>)
    ensures o == If(result, trueT, MakeElse(elseT))
  {
    assert Invoke(Forwarding(elseT)) == Invoke(elseT);
    Call(Selector(result, trueT, Some(Forwarding(elseT))))
  }

  /** else_if_ with an else_ wrapper: the selector, not yet called, to be nested in an enclosing else_. */
  function ElseIf<T>(result: bool, trueT: Producer<T>, else_: Else<T>): (s: Selector<T>)
    ensures Call(s) == if result then Invoke(trueT) else Invoke(else_.then_)
  {
    Selector(result, trueT, Some(else_.then_))
  }

  /** else_if_ without an else: the false producer is the no-op lambda. */
  function ElseIfNoElse<T>(result: bool, trueT: Producer<T>): (s: Selector<T>)
    ensures !result ==> Call(s) == Nothing()
    ensures result ==> Call(s) == Invoke(trueT)
  {
    Selector(result, trueT, Some(NoOp))
  }

  /** case_<result>: a case with that flag. */
  function MakeCase<T>(result: bool, case_: Producer<T>): (c: Case<T>)
    ensures c.value == result && Invoke(c.case_) == Invoke(case_)
  {
    Case(result, case_)
  }

  /** default_: a case whose flag is always true. */
  function Default<T>(default_: Producer<T>): (c: Case<T>)
    ensures c.value && Invoke(c.case_) == Invoke(default_)
  {
    Case(true, default_)
  }

  /**
   * switch_, its four overloads: the first case if its flag is true; otherwise the switch over
   * the remaining cases, and nothing once the last case is false.
   */
  function Switch<T>(cases: seq<Case<T>>): (o: Outcome<T>)
    requires |cases| >= 1
    ensures |o.ran| <= 1
    decreases |cases|
  {
    if cases[0].value then Invoke(cases[0].case_)
    else if |cases| == 1 then Nothing()
    else Switch(cases[1..])
  }

  /** The switch calls the first case whose flag is true, and only that one. */
  lemma {:induction false} SwitchFirstTrue<T>(cases: seq<Case<T>>, j: nat)
    requires j < |cases| && cases[j].value
    requires forall k :: 0 <= k < j ==> !cases[k].value
    ensures Switch(cases) == Invoke(cases[j].case_)
    decreases j
  {
    if j > 0 {
      assert !cases[0].value;
      SwitchFirstTrue(cases[1..], j - 1);
    }
  }

  /** With no true flag the switch calls nothing and returns void. */
  lemma {:induction false} SwitchNoneTrue<T>(cases: seq<Case<T>>)
    requires |cases| >= 1
    requires forall k :: 0 <= k < |cases| ==> !cases[k].value
    ensures Switch(cases) == Nothing()
    decreases |cases|
  {
    if |cases| > 1 {
      assert !cases[0].value;
      SwitchNoneTrue(cases[1..]);
    }
  }

  /** A default_ after cases that are all false is taken. */
  lemma DefaultTaken<T>(cases: seq<Case<T>>, default_: Producer<T>)
    requires forall k :: 0 <= k < |cases| ==> !cases[k].value
    ensures Switch(cases + [Default(default_)]) == Invoke(default_)
  {
    var all := cases + [Default(default_)];
    SwitchFirstTrue(all, |cases|);
  }

  /**
   * An else-if chain: `else_if_<b1>(p1, else_(else_if_<b2>(p2, ... else_(last))))` over the
   * branches (flag, producer), ending in the last producer.
   */
  function ElseIfChain<T>(branches: seq<Case<T>>, last: Producer<T>): Producer<T>
    decreases |branches|
  {
    if branches == [] then last
    else Nested(ElseIf(branches[0].value, branches[0].case_, MakeElse(ElseIfChain(branches[1..], last))))
  }

  /**
   * An if_/else_if_/else_ chain picks what a switch over the same branches, closed by a
   * default_ for the final else, picks: the first branch whose flag is true, else the last
   * producer.
   */
  lemma {:induction false} ChainIsSwitch<T>(result: bool, trueT: Producer<T>, branches: seq<Case<T>>, last: Producer<T>)
    ensures If(result, trueT, MakeElse(ElseIfChain(branches, last)))
         == Switch([Case(result, trueT)] + branches + [Default(last)])
  {
    var all := [Case(result, trueT)] + branches + [Default(last)];
    if !result {
      ElseIfChainIsSwitch(branches, last);
      assert all[1..] == branches + [Default(last)];
    }
  }

  lemma {:induction false} ElseIfChainIsSwitch<T>(branches: seq<Case<T>>, last: Producer<T>)
    ensures Invoke(ElseIfChain(branches, last)) == Switch(branches + [Default(last)])
    decreases |branches|
  {
    var all := branches + [Default(last)];
    if branches != [] && !branches[0].value {
      ElseIfChainIsSwitch(branches[1..], last);
      assert all[1..] == branches[1..] + [Default(last)];
    }
  }
}
