/** `CustomPureComponent.shouldComponentUpdate(nextProps)` of src/App.js: re-render
    exactly when the next props are not shallowly equal to the current ones. Which
    props the rendering host passes, and when it asks, belong to the host. */
module PureComponent {
  import opened Values
  import opened ShallowCompare
  import opened CustomMemo

  /** The decision for a component whose current props are `props`. */
  function ShouldComponentUpdate(props: Record, nextProps: Record): (update: bool)
    ensures props == nextProps ==> !update
    ensures |props| != |nextProps| ==> update
    ensures (exists key :: key in props && props[key] != Get(nextProps, key)) ==> update
  {
    !ShallowlyEqual(props, nextProps)
  }

  /** When the current props bind no key to `undefined`, the component re-renders
      exactly when the next props are a different record. */
  lemma UpdateIffPropsChanged(props: Record, nextProps: Record)
    requires NoUndefined(props)
    ensures ShouldComponentUpdate(props, nextProps) <==> props != nextProps
  {
    EqualIffSameRecord(props, nextProps);
  }

  /** The component and the memo wrapper use one policy: the component skips a
      render exactly when the memo wrapper, holding the same props, would hit. */
  lemma SkipIffMemoHit<R>(c: Cache<R>, nextProps: Record)
    requires c.lastProps.Some?
    ensures !ShouldComponentUpdate(c.lastProps.value, nextProps) <==> IsHit(c, nextProps)
  {
  }
}
