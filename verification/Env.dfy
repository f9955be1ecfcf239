/** The environment lists of processes: putenv, getenv, and the copy a child gets. */
module Env {
  import opened Options

  /** struct env. The list is kept newest first. */
  datatype Var = Var(name: string, value: string)

  /** getenv takes the first entry with the name. */
  function Value(env: seq<Var>, name: string): Option<string> {
    if env == [] then None else if env[0].name == name then Some(env[0].value) else Value(env[1..], name)
  }

  function Reversed(env: seq<Var>): (r: seq<Var>)
    ensures |r| == |env| && forall k {:trigger r[k]} :: 0 <= k < |r| ==> r[k] == env[|env| - 1 - k]
  {
    if env == [] then [] else Reversed(env[1..]) + [env[0]]
  }

  class Environment {
    var vars: seq<Var>

    constructor ()
      ensures vars == []
    {
      vars := [];
    }

    method Putenv(name: string, value: string)
      requires |name| < 100 && |value| < 100
      modifies this
      ensures vars == [Var(name, value)] + old(vars)
      ensures Value(vars, name) == Some(value)
      ensures forall other :: other != name ==> Value(vars, other) == Value(old(vars), other)
    {
      vars := [Var(name, value)] + vars;
    }

    method Getenv(name: string) returns (value: Option<string>)
      ensures value == Value(vars, name)
    {
      var env := vars;
      while env != []
        invariant Value(env, name) == Value(vars, name)
        decreases |env|
      {
        if name == env[0].name {
          return Some(env[0].value);
        }
        env := env[1..];
      }
      value := None;
    }

    /** proc_copy_env(parent, this): every copy is put in front. */
    method CopyEnv(parent: Environment)
      requires parent != this
      modifies this
      ensures vars == Reversed(parent.vars) + old(vars)
    {
      var env := parent.vars;
      ghost var done: seq<Var> := [];
      while env != []
        invariant parent.vars == done + env && vars == Reversed(done) + old(vars)
        decreases |env|
      {
        vars := [env[0]] + vars;
        ReversedSnoc(done, env[0]);
        done := done + [env[0]];
        env := env[1..];
      }
      assert done == parent.vars;
    }
  }

  lemma {:induction false} ReversedSnoc(env: seq<Var>, v: Var)
    ensures Reversed(env + [v]) == [v] + Reversed(env)
  {
    if env == [] {
      assert env + [v] == [v] && [v][1..] == [];
    } else {
      ReversedSnoc(env[1..], v);
      assert (env + [v])[1..] == env[1..] + [v] && (env + [v])[0] == env[0];
    }
  }

  /** Two entries, the newest and the oldest with their name, disagree. */
  ghost predicate Shadowed(env: seq<Var>, i: nat, j: nat) {
    && i < j < |env| && env[i].name == env[j].name && env[i].value != env[j].value
    && (forall k :: 0 <= k < i ==> env[k].name != env[i].name)
    && (forall k :: j < k < |env| ==> env[k].name != env[i].name)
  }

  lemma {:induction false} ValueAt(env: seq<Var>, name: string) returns (i: nat)
    ensures Value(env, name) == None ==> i == |env|
    ensures Value(env, name).Some? ==> i < |env| && env[i].name == name && Value(env, name) == Some(env[i].value)
    ensures forall k :: 0 <= k < i ==> env[k].name != name
  {
    i := 0;
    if env != [] && env[0].name != name {
      i := ValueAt(env[1..], name);
      i := i + 1;
      forall k | 0 <= k < i ensures env[k].name != name {
        assert k > 0 ==> env[k] == env[1..][k - 1];
      }
    }
  }

  /** A child sees its parent's variables exactly when the newest and the oldest value of every name agree: the
      copy turns the list round, so that the oldest value wins. */
  lemma CopySees(env: seq<Var>)
    ensures (forall name :: Value(Reversed(env), name) == Value(env, name)) <==>
      !exists i: nat, j: nat :: Shadowed(env, i, j)
  {
    if i: nat, j: nat :| Shadowed(env, i, j) {
      var a := ValueAt(env, env[i].name);
      var b := ValueAt(Reversed(env), env[i].name);
      assert env[a].name == env[i].name && a == i;
      assert Reversed(env)[|env| - 1 - j] == env[j];
      assert b == |env| - 1 - j;
    }
    if name :| Value(Reversed(env), name) != Value(env, name) {
      var a := ValueAt(env, name);
      var b := ValueAt(Reversed(env), name);
      assert b < |env| by {
        assert a < |env| ==> Reversed(env)[|env| - 1 - a] == env[a];
      }
      var j: nat := |env| - 1 - b;
      assert Reversed(env)[b] == env[j] && env[j].name == name;
      forall k | j < k < |env| ensures env[k].name != name {
        assert Reversed(env)[|env| - 1 - k] == env[k];
      }
      assert Shadowed(env, a, j);
    }
  }
}
