/** The estimator settings of internal/config.go (bvvMAConfig). Go's `int` Window is taken
    to be 64 bits wide. */
module Config {
  import opened Generic

  const DefaultInterval: string := "1d"
  const DefaultWindow: int64 := 42

  class MAConfig {
    var Interval: string
    var Window: int64
    var Limit: int64

    constructor (interval: string, window: int64, limit: int64)
      ensures Interval == interval && Window == window && Limit == limit
    {
      Interval := interval;
      Window := window;
      Limit := limit;
    }

    /** A configuration is in use as soon as a positive window or limit or an interval is
        given: the zero value is not, and one SetDefaults has filled in is. */
    function Enabled(): (r: bool)
      reads this
      ensures Interval == "" && Window == 0 && Limit == 0 ==> !r
      ensures IsDefaulted() ==> r
    {
      Window > 0 || Limit > 0 || Interval != ""
    }

    /** Nothing is left for SetDefaults to fill in. A limit that stays 0 is the one case
        where twice the window wraps around to 0. */
    predicate IsDefaulted()
      reads this
    {
      && Interval != ""
      && Window != 0
      && (Limit != 0 || Wrap64(2 * Window as int) == 0)
    }

    /** Fills the unset settings: interval "1d", window 42, and a limit of twice the
        (already defaulted) window, computed in int64. */
    method SetDefaults()
      modifies this
      ensures Interval == if old(Interval) == "" then DefaultInterval else old(Interval)
      ensures Window == if old(Window) == 0 then DefaultWindow else old(Window)
      ensures Limit == if old(Limit) == 0 then Wrap64(2 * Window as int) else old(Limit)
      ensures IsDefaulted() && Enabled()
      ensures old(IsDefaulted()) ==> Interval == old(Interval) && Window == old(Window) && Limit == old(Limit)
    {
      if Interval == "" {
        Interval := DefaultInterval;
      }
      if Window == 0 {
        Window := DefaultWindow;
      }
      if Limit == 0 {
        Limit := Wrap64(2 * Window as int);
      }
    }
  }

  /** The all-zero configuration defaults to interval "1d", window 42 and limit 84. */
  method ZeroConfigDefaults() returns (c: MAConfig)
    ensures c.Interval == "1d" && c.Window == 42 && c.Limit == 84 && c.Enabled()
  {
    c := new MAConfig("", 0, 0);
    c.SetDefaults();
  }
}
