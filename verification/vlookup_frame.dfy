/**
 * The VLOOKUP settings tab (vlookup_frame.py): five text fields saved and
 * restored with the preset, and the list of column names offered for the
 * main key.
 */
module VlookupSettings {
  import opened TableModel

  /** The five keys of the saved document. */
  const Fields: set<string> := {"main_keys", "lookup_keys", "values", "prefix", "default_fill"}

  function GetOr(cfg: map<string, string>, k: string): string {
    if k in cfg then cfg[k] else ""
  }

  /** The document `get_config` returns after `load_config(cfg)`: each field from `cfg`, "" when missing. */
  function Loaded(cfg: map<string, string>): (r: map<string, string>)
    ensures r.Keys == Fields
    ensures forall k :: k in Fields && k in cfg ==> r[k] == cfg[k]
    ensures forall k :: k in Fields && k !in cfg ==> r[k] == ""
  {
    map k | k in Fields :: GetOr(cfg, k)
  }

  /** A document holding exactly the five keys comes back unchanged. */
  lemma LoadedRoundTrip(cfg: map<string, string>)
    requires cfg.Keys == Fields
    ensures Loaded(cfg) == cfg
  {
  }

  /** Loading is idempotent: a loaded document loads to itself. */
  lemma LoadedIdempotent(cfg: map<string, string>)
    ensures Loaded(Loaded(cfg)) == Loaded(cfg)
  {
  }

  class VlookupFrame {
    var mainKeys: string
    var lookupKeys: string
    var values: string
    var prefix: string
    var defaultFill: string
    var columns: seq<string>

    /** All five fields start blank; missing columns become the empty list. */
    constructor(cols: Option<seq<string>>)
      ensures columns == (if cols.Some? then cols.value else [])
      ensures mainKeys == "" && lookupKeys == "" && values == "" && prefix == "" && defaultFill == ""
    {
      columns := if cols.Some? then cols.value else [];
      mainKeys, lookupKeys, values, prefix, defaultFill := "", "", "", "", "";
    }

    /** `get_config`: exactly the five fields. */
    function GetConfig(): (cfg: map<string, string>)
      reads this
      ensures cfg.Keys == Fields
      ensures Loaded(cfg) == cfg
    {
      map["main_keys" := mainKeys, "lookup_keys" := lookupKeys, "values" := values,
          "prefix" := prefix, "default_fill" := defaultFill]
    }

    /** `load_config`: each field from `cfg`, "" when the key is missing. */
    method LoadConfig(cfg: map<string, string>)
      modifies this
      ensures GetConfig() == Loaded(cfg)
      ensures mainKeys == GetOr(cfg, "main_keys") && lookupKeys == GetOr(cfg, "lookup_keys") && values == GetOr(cfg, "values")
      ensures prefix == GetOr(cfg, "prefix") && defaultFill == GetOr(cfg, "default_fill")
      ensures columns == old(columns)
    {
      mainKeys := GetOr(cfg, "main_keys");
      lookupKeys := GetOr(cfg, "lookup_keys");
      values := GetOr(cfg, "values");
      prefix := GetOr(cfg, "prefix");
      defaultFill := GetOr(cfg, "default_fill");
    }

    /** `set_columns`: store the names offered for the main key, or [] for none. */
    method SetColumns(cols: Option<seq<string>>)
      modifies this
      ensures columns == (if cols.Some? then cols.value else [])
      ensures GetConfig() == old(GetConfig())
    {
      columns := if cols.Some? then cols.value else [];
    }
  }
}
