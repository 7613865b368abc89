/** The name mangler for free functions: it appends to the name being built and keeps a table of entities already
  * spelled out. */
module Mangler {
  import opened Sequences
  import opened Wrappers
  import opened Numerals
  import opened MangledNames
  import Substitutions

  /** A declaration: two of them can share a name. */
  datatype Entity = Entity(id: nat, name: string)

  /** One step of the way outwards from a declaration. */
  datatype Scope = Scope(isNamespace: bool, owner: Option<Entity>)

  datatype FunctionDecl = FunctionDecl(name: string, params: seq<QualType>, scopes: seq<Scope>)

  /** The named namespaces among some scopes, in the same order: innermost first. */
  function Named(scopes: seq<Scope>): seq<Entity> {
    if scopes == [] then []
    else
      var s := scopes[0];
      (if s.isNamespace && s.owner.Some? && s.owner.value.name != "" then [s.owner.value] else []) + Named(scopes[1..])
  }

  /** Their names, outermost first. */
  function Path(es: seq<Entity>): seq<string> {
    if es == [] then [] else Path(es[1..]) + [es[0].name]
  }

  function SignatureOf(f: FunctionDecl): Signature {
    Signature(Path(Named(f.scopes)), f.name, f.params)
  }

  predicate FirstAt(es: seq<Entity>, e: Entity, i: nat) {
    i < |es| && es[i] == e && e !in es[..i]
  }

  lemma {:induction false} PiecesAppend(p: seq<string>, x: string)
    ensures Pieces(p + [x]) == Pieces(p) + Piece(x)
  {
    hide Piece;
    if p == [] {
      assert p + [x] == [x];
    } else {
      PiecesAppend(p[1..], x);
      assert (p + [x])[0] == p[0] && (p + [x])[1..] == p[1..] + [x];
    }
  }

  lemma NamedStep(scopes: seq<Scope>, i: nat)
    requires i < |scopes|
    ensures var s := scopes[i];
            Named(scopes[i..])
                == (if s.isNamespace && s.owner.Some? && s.owner.value.name != "" then [s.owner.value] else [])
                + Named(scopes[i + 1..])
  {
    assert scopes[i..][1..] == scopes[i + 1..];
  }

  lemma {:induction false} PathShape(es: seq<Entity>)
    ensures |Path(es)| == |es|
    ensures forall k :: 0 <= k < |es| ==> Path(es)[|es| - 1 - k] == es[k].name
  {
    if es != [] {
      PathShape(es[1..]);
    }
  }

  class IRMangler {
    var substitutions: seq<Entity>

    constructor ()
      ensures substitutions == []
    {
      substitutions := [];
    }

    method ResetSubstitutions()
      modifies this
      ensures substitutions == []
    {
      substitutions := [];
    }

    method AddSubstitution(e: Entity) returns (index: nat)
      modifies this
      ensures index == old(|substitutions|) && substitutions == old(substitutions) + [e]
    {
      index := |substitutions|;
      substitutions := substitutions + [e];
    }

    /** The abbreviation of the first entry that is this entity. */
    method TrySubstitution(e: Entity) returns (r: Option<string>)
      ensures r.None? <==> e !in substitutions
      ensures r.Some? ==> exists i :: FirstAt(substitutions, e, i) && r.value == Substitutions.Code(i)
    {
      for i := 0 to |substitutions|
        invariant e !in substitutions[..i]
      {
        if substitutions[i] == e {
          var code := Substitutions.Encode(i);
          assert FirstAt(substitutions, e, i);
          return Some(code);
        }
      }
      return None;
    }

    static method MangleSourceName(x: string, out: string) returns (out': string)
      ensures out' == out + SourceName(x)
    {
      out' := out + Dec(|x|);
      out' := out' + x;
      assert out' == out + (Dec(|x|) + x);
    }

    method MangleFunctionType(t: Type, out: string) returns (out': string)
      requires t.Function?
      ensures out' == out + Mangled(t)
      decreases t, 0
    {
      hide Mangled;
      out' := out + "F";
      out' := MangleQualType(QualType(false, false, t.result), out');
      for i := 0 to |t.params|
        invariant out' + MangledAll(t.params[i..]) == out + "F" + Mangled(t.result) + MangledAll(t.params)
      {
        assert t.params[i..][1..] == t.params[i + 1..];
        out' := MangleQualType(QualType(false, false, t.params[i]), out');
      }
      FunctionSpelling(t);
      assert t.params[|t.params|..] == [];
      assert out' == out' + "" == out + "F" + Mangled(t.result) + MangledAll(t.params);
      if t.variadic {
        out' := out' + "z";
      }
      out' := out' + "E";
    }

    static lemma FunctionSpelling(t: Type)
      requires t.Function?
      ensures Mangled(t) == "F" + Mangled(t.result) + MangledAll(t.params) + (if t.variadic then "z" else "") + "E"
    {
    }

    method MangleArrayType(t: Type, out: string) returns (out': string)
      requires t.ConstantArray? || t.IncompleteArray?
      ensures out' == out + Mangled(t)
      decreases t, 0
    {
      hide Dec;
      if t.ConstantArray? {
        out' := out + "A";
        out' := out' + Dec(t.size);
        out' := out' + "_";
        out' := MangleQualType(QualType(false, false, t.element), out');
      } else {
        out' := out + "A_";
        out' := MangleQualType(QualType(false, false, t.element), out');
      }
    }

    method MangleBuiltinType(t: Type, out: string) returns (out': string)
      requires t.Builtin?
      ensures out' == out + Mangled(t)
    {
      hide Code;
      out' := out + Code(t.kind);
    }

    method ManglePointerType(t: Type, out: string) returns (out': string)
      requires t.Pointer?
      ensures out' == out + Mangled(t)
      decreases t, 0
    {
      out' := out + "P";
      out' := MangleQualType(QualType(false, false, t.pointee), out');
    }

    method MangleReferenceType(t: Type, out: string) returns (out': string)
      requires t.Reference?
      ensures out' == out + Mangled(t)
      decreases t, 0
    {
      if t.lvalue {
        out' := out + "R";
      } else {
        out' := out + "O";
      }
      out' := MangleQualType(QualType(false, false, t.referenced), out');
    }

    method MangleQualType(q: QualType, out: string) returns (out': string)
      ensures out' == out + MangledQual(q)
      decreases q.unqualified, 1
    {
      hide Mangled;
      out' := out;
      if q.const_ {
        out' := out' + "K";
      }
      if q.volatile {
        out' := out' + "V";
      }
      var t := q.unqualified;
      match t {
        case Builtin(_) => out' := MangleBuiltinType(t, out');
        case Pointer(_) => out' := ManglePointerType(t, out');
        case Reference(_, _) => out' := MangleReferenceType(t, out');
        case ConstantArray(_, _) => out' := MangleArrayType(t, out');
        case IncompleteArray(_) => out' := MangleArrayType(t, out');
        case Function(_, _, _) => out' := MangleFunctionType(t, out');
      }
    }

    method MangleFunctionParamTypes(params: seq<QualType>, out: string) returns (out': string)
      ensures out' == out + MangledParams(params)
    {
      hide MangledQual;
      if params == [] {
        return out + "v";
      }
      out' := out;
      for i := 0 to |params|
        invariant out' + MangledQuals(params[i..]) == out + MangledQuals(params)
      {
        assert params[i..][1..] == params[i + 1..];
        out' := MangleQualType(params[i], out');
      }
    }

    /** The namespaces of a nested name, outermost first. One met before would be abbreviated, but each is met once. */
    method MangleNamespaces(chain: seq<Entity>, out: string) returns (out': string)
      requires substitutions == []
      modifies this
      ensures NoDuplicates(chain) ==> out' == out + Pieces(Path(chain))
    {
      hide Pieces, SourceName;
      out' := out;
      assert Pieces([]) == "" by { NoPieces(); }
      for k := |chain| downto 0
        invariant NoDuplicates(chain) ==> out' == out + Pieces(Path(chain[k..]))
        invariant forall e <- substitutions :: e in chain[k..]
      {
        var e := chain[k];
        assert chain[k..][1..] == chain[k + 1..];
        PiecesAppend(Path(chain[k + 1..]), e.name);
        if e.name == "std" {
          out' := out' + "St";
          continue;
        }
        var s := TrySubstitution(e);
        if s.Some? {
          out' := out' + s.value;
        } else {
          out' := MangleSourceName(e.name, out');
          if |e.name| > 1 {
            var _ := AddSubstitution(e);
          }
        }
      }
      assert chain[0..] == chain;
    }

    static lemma NoPieces()
      ensures Pieces([]) == ""
    {
    }

    method MangleFunctionName(f: FunctionDecl) returns (name: string)
      modifies this
      ensures NoDuplicates(Named(f.scopes)) ==> name == MangledFunction(SignatureOf(f))
    {
      hide Pieces, Piece, SourceName, MangledParams, Path, NoDuplicates;
      ResetSubstitutions();
      name := "_Z";
      var chain := NamespaceChain(f.scopes);
      PathShape(chain);
      if chain != [] {
        if |chain| == 1 && chain[0].name == "std" {
          assert Path(chain) == ["std"];
          name := name + "St";
          name := MangleSourceName(f.name, name);
        } else {
          assert Path(chain) != ["std"];
          name := name + "N";
          name := MangleNamespaces(chain, name);
          name := MangleSourceName(f.name, name);
          name := name + "E";
        }
      } else {
        name := MangleSourceName(f.name, name);
      }
      assert NoDuplicates(chain) ==> name == "_Z" + QualifiedName(Path(chain), f.name);
      name := MangleFunctionParamTypes(f.params, name);
    }

    /** The named namespaces met on the way outwards. */
    static method NamespaceChain(scopes: seq<Scope>) returns (chain: seq<Entity>)
      ensures chain == Named(scopes)
    {
      hide Named;
      chain := [];
      var i := 0;
      assert Named([]) == [] by { NoneNamed(); }
      while i < |scopes|
        invariant i <= |scopes| && chain + Named(scopes[i..]) == Named(scopes)
      {
        var s := scopes[i];
        NamedStep(scopes, i);
        if s.isNamespace {
          if s.owner.Some? && s.owner.value.name != "" {
            chain := chain + [s.owner.value];
          }
        }
        i := i + 1;
      }
      assert scopes[i..] == [];
    }

    static lemma NoneNamed()
      ensures Named([]) == []
    {
    }
  }

  /** Two declared functions share a symbol exactly when they agree in namespace names, name and parameter types. */
  lemma SymbolsAreUnique(f: FunctionDecl, g: FunctionDecl)
    requires ValidName(f.name) && ValidName(g.name) && ValidScopes(f.scopes) && ValidScopes(g.scopes)
    ensures MangledFunction(SignatureOf(f)) == MangledFunction(SignatureOf(g)) <==>
            Path(Named(f.scopes)) == Path(Named(g.scopes)) && f.name == g.name && Normal(f.params) == Normal(g.params)
  {
    hide MangledFunction, Normal;
    NamedIsValid(f.scopes);
    NamedIsValid(g.scopes);
    PathIsValid(Named(f.scopes));
    PathIsValid(Named(g.scopes));
    MangledFunctionIsInjective(SignatureOf(f), SignatureOf(g));
  }

  /** A namespace has no name or an identifier. */
  predicate ValidScopes(scopes: seq<Scope>) {
    forall k :: 0 <= k < |scopes| && scopes[k].owner.Some? ==>
        scopes[k].owner.value.name == "" || ValidName(scopes[k].owner.value.name)
  }

  lemma {:induction false} NamedIsValid(scopes: seq<Scope>)
    requires ValidScopes(scopes)
    ensures forall k :: 0 <= k < |Named(scopes)| ==> ValidName(Named(scopes)[k].name)
  {
    if scopes != [] {
      NamedIsValid(scopes[1..]);
    }
  }

  lemma {:induction false} PathIsValid(es: seq<Entity>)
    requires forall k :: 0 <= k < |es| ==> ValidName(es[k].name)
    ensures ValidPath(Path(es))
  {
    if es != [] {
      PathIsValid(es[1..]);
    }
  }
}
