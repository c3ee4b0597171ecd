/**
 * The middleware chain of pkg/wmp/registry.go. Handlers and layers with side effects are those whose
 * request and result types carry the state they read and leave behind.
 */
module Middleware {

  type Func<!Req, !Res> = Req -> Res

  type Layer<!Req, !Res> = (Req, Func<Req, Res>) -> Res

  function Wrap<Req, Res>(layer: Layer<Req, Res>, next: Func<Req, Res>): Func<Req, Res> {
    (r: Req) => layer(r, next)
  }

  /** The chain as a right fold: the first layer is outermost and the final handler innermost. */
  function Chain<Req, Res>(layers: seq<Layer<Req, Res>>, final: Func<Req, Res>): Func<Req, Res> {
    if layers == [] then final else Wrap(layers[0], Chain(layers[1..], final))
  }

  /** `runMiddleware`: the chain built from the inside out by a loop, then called. */
  method RunMiddleware<Req, Res>(layers: seq<Layer<Req, Res>>, final: Func<Req, Res>, r: Req) returns (res: Res)
    ensures res == Chain(layers, final)(r)
  {
    var chain := final;
    var i := |layers|;
    while i > 0
      invariant 0 <= i <= |layers|
      invariant chain == Chain(layers[i..], final)
    {
      i := i - 1;
      assert layers[i..][1..] == layers[i + 1..];
      chain := Wrap(layers[i], chain);
    }
    assert layers[0..] == layers;
    res := chain(r);
  }

  /** Registering more middleware nests it inside what was registered before. */
  lemma {:induction false} ChainConcat<Req, Res>(xs: seq<Layer<Req, Res>>, ys: seq<Layer<Req, Res>>,
                                                 final: Func<Req, Res>)
    ensures Chain(xs + ys, final) == Chain(xs, Chain(ys, final))
  {
    if xs == [] {
      assert xs + ys == ys;
    } else {
      assert (xs + ys)[1..] == xs[1..] + ys;
      ChainConcat(xs[1..], ys, final);
    }
  }

  ghost predicate PassThrough<Req(!new), Res(!new)>(layer: Layer<Req, Res>) {
    forall r: Req, next: Func<Req, Res> :: layer(r, next) == next(r)
  }

  /** A chain of pass-through layers is the final handler. */
  lemma {:induction false} PassThroughChain<Req(!new), Res(!new)>(layers: seq<Layer<Req, Res>>,
                                                                  final: Func<Req, Res>, r: Req)
    requires forall i :: 0 <= i < |layers| ==> PassThrough(layers[i])
    ensures Chain(layers, final)(r) == final(r)
  {
    if layers != [] {
      assert PassThrough(layers[0]);
      PassThroughChain(layers[1..], final, r);
    }
  }

  /** A layer that rewrites the request on the way in and the result on the way out. */
  datatype Rewriter<!Req, !Res> = Rewriter(inward: Req -> Req, outward: Res -> Res)

  function AsLayer<Req, Res>(w: Rewriter<Req, Res>): Layer<Req, Res> {
    (r: Req, next: Func<Req, Res>) => w.outward(next(w.inward(r)))
  }

  function AsLayers<Req, Res>(ws: seq<Rewriter<Req, Res>>): (ls: seq<Layer<Req, Res>>)
    ensures |ls| == |ws|
    ensures forall i :: 0 <= i < |ls| ==> ls[i] == AsLayer(ws[i])
  {
    if ws == [] then [] else [AsLayer(ws[0])] + AsLayers(ws[1..])
  }

  /** The request after the first registered rewriter, then the second, and so on. */
  function Inward<Req, Res>(ws: seq<Rewriter<Req, Res>>, r: Req): Req {
    if ws == [] then r else Inward(ws[1..], ws[0].inward(r))
  }

  /** The result after the last registered rewriter, then the one before it, and so on. */
  function Outward<Req, Res>(ws: seq<Rewriter<Req, Res>>, res: Res): Res {
    if ws == [] then res else Outward(ws[..|ws| - 1], ws[|ws| - 1].outward(res))
  }

  lemma {:induction false} OutwardFirst<Req, Res>(ws: seq<Rewriter<Req, Res>>, res: Res)
    requires ws != []
    ensures Outward(ws, res) == ws[0].outward(Outward(ws[1..], res))
    decreases |ws|
  {
    if |ws| == 1 {
      assert ws[..0] == [] && ws[1..] == [];
    } else {
      var last := ws[|ws| - 1];
      OutwardFirst(ws[..|ws| - 1], last.outward(res));
      assert ws[..|ws| - 1][1..] == ws[1..][..|ws| - 2];
      assert ws[1..][|ws| - 2] == last;
    }
  }

  /** Requests pass the layers in registration order, results pass them back in reverse. */
  lemma {:induction false} OrderOfLayers<Req, Res>(ws: seq<Rewriter<Req, Res>>, final: Func<Req, Res>, r: Req)
    ensures Chain(AsLayers(ws), final)(r) == Outward(ws, final(Inward(ws, r)))
    decreases |ws|
  {
    if ws != [] {
      assert AsLayers(ws)[1..] == AsLayers(ws[1..]);
      OrderOfLayers(ws[1..], final, ws[0].inward(r));
      OutwardFirst(ws, final(Inward(ws, r)));
    }
  }
}
