/** Optional values, used wherever the modelled code can come back empty-handed
    (a `null` form, a decoder that rejects its input, a `btoa` that throws). */
module Options {

  datatype Option<+T> = None | Some(value: T)

}
